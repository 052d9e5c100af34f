# Guardrail actions: a verified model

This project models the deterministic logic inside the action handlers of a
small conversational-guardrails plugin set. The handlers are mostly calls to
remote services. Three pieces of logic remain once those calls are made
parameters of the model:

- **Email-shape detector** (`contains_email` in `tools.py`, `check_email` in
  `configs/05_output_rails_privacy/actions.py`). Both run an unanchored search for
  `[a-zA-Z0-9._%+-]+@[a-zA-Z0-9.-]+\.[a-zA-Z]{2,}`. Module `EmailPattern`
  defines the pattern as a predicate on strings: `MatchesPattern(w)` says that
  all of `w` matches, and `ContainsEmail(s)` says that some substring of `s`
  matches. The module proves that a match exists exactly when a minimal witness
  exists: one local character, `@`, a domain run, `.` and two letters. It also
  proves a scanning method equal to the predicate. Module `PrivacyRail` adds the
  `bot_message` lookup of `check_email` and its failure cases. This is a shape
  check only; it is not the addr-spec of section 3.4.1 of RFC 5322.
- **Atom-entry formatter** (`fetch_arxiv_papers`). The same function appears in
  `utils.py`, `tools.py` and `configs/04_hallucination_tools_rails/actions.py`.
  The three copies differ only in blank lines, an `async` marker and, in the
  `configs/04` copy, the `@action(is_system_action=True)` registration, so module
  `ArxivFeed` models them once. The rows below cite whichever copy holds the
  line in question. The function is given what the request and the XML parse
  produced, as a `FetchOutcome`: a `URLError`, an undecodable body, malformed
  XML, or the feed's entries in document order. Each entry gives its `title`
  (section 4.2.14 of RFC 4287), its `published` date (section 4.2.9) and the
  `name` of each `author` (sections 4.2.1 and 3.2.1). The result is a
  `Result<Option<string>, Exception>`: `Ok(None)` is Python's `None`, and
  `Err` is an exception that escapes. The entry loop is the method
  `FetchArxivPapers`. Its invariant says that the accumulated text is the
  listing of the papers read so far. Its postcondition ties it to the
  specification function `FetchArxiv`, whose properties are proved as lemmas.
- **Line structure of the listing.** Module `ListingText` models Python's
  `split("\n")` and proves that the returned text can be read back line by
  line. When no title, year or author name holds a newline, the text of `n`
  papers has `4 * n + 1` lines: four per paper in feed order, then the empty
  remainder after the last newline.
- **Topic-request payload** (`extract_key_topic` in
  `configs/04_hallucination_tools_rails/actions.py`). Module `TopicRequest`
  builds the JSON request body and extracts `output[0]['generated_text']`,
  with Python's failure cases. The endpoint is a function parameter.

Modules `Wrappers` (`Option`, `Result`) and `Python` (the exceptions that can
escape, and how an f-string prints `None`) are shared by the others.

The model follows the code, which is looser than one might expect in places:

- The year is the first four characters of `published`, or all of it when it
  is shorter. The comment at `utils.py:56` speaks of extracting the year, but
  nothing checks that the four characters are digits.
- The bound of "at most 10 papers" comes only from the requested
  `max_results`. The loop formats every entry it is given.
- A missing `title`, `published` or author `name` element is a failure
  (`AttributeError`). An element that is present but empty is not a failure
  for `title` and `name`, which print as `None`. For `published` it is a
  failure (`TypeError` on the slice).
- `entry.find("author/name")` gives the first `name` under any `author`. An
  author without a name is skipped, not reported as a failure.

## Model

| member | source | states |
|---|---|---|
| `EmailPattern.ContainsEmail` | tools.py:15-18 | `re.search(...) is not None`: some substring matches the whole pattern. A text that contains a match holds an `@` and at least six characters. |
| `EmailPattern.WitnessIffContains` | tools.py:12-18 | The search finds a match exactly when some local character is followed by `@`, a non-empty domain run, `.` and two letters. The outer `+` and the `{2,}` never need more than their minimum. |
| `EmailPattern.MatchGivesWitness` | tools.py:12 | Any substring that matches the whole pattern contains a minimal witness. |
| `EmailPattern.WitnessGivesMatch` | tools.py:12 | A minimal witness is itself a full match of the pattern. |
| `EmailPattern.FindEmail` | tools.py:15-18 | A left-to-right scan over every `@` and the domain run after it returns true exactly when the text contains a match of the pattern. |
| `EmailPattern.NoAtNoEmail` | tools.py:15-18 | Text without `@`, including the empty text, never contains a match. |
| `EmailPattern.ContainsEmailInContext` | tools.py:15 | The search is monotone: text that contains a match still contains one after anything is added before or after it. |
| `EmailPattern.TopLevelNeedsTwoLetters` | tools.py:12 | `"a@b.co"` matches; `"a@b.c"` (one letter) and `"a@b.12"` (digits) do not. |
| `EmailPattern.NeedsLocalPart` | configs/05_output_rails_privacy/actions.py:12 | `"@example.com"` does not match, because a local character is needed before `@`. |
| `EmailPattern.ExampleTexts` | configs/05_output_rails_privacy/actions.py:12-18 | `"contact me at a.b+tag@example.co.uk"` matches; `"no contact info here"` does not. |
| `PrivacyRail.CheckEmail` | configs/05_output_rails_privacy/actions.py:8-18 | A missing context fails with `AttributeError`. A context without `bot_message` fails with `TypeError`. Otherwise the result is true exactly when the message contains a match: the same predicate as `contains_email`. |
| `PrivacyRail.ReadsOnlyBotMessage` | configs/05_output_rails_privacy/actions.py:9 | Two contexts that agree on `bot_message` give the same answer; no other key is read. |
| `PrivacyRail.ExampleMessages` | configs/05_output_rails_privacy/actions.py:15-18 | The rail returns true for `"contact me at a.b+tag@example.co.uk"`, and false for `"no contact info here"` and for `"@example.com"`. |
| `ArxivFeed.QueryParams` | utils.py:31-35 | The request has exactly three parameters: `search_query` is `all:` followed by the quoted query, `start` is 0 and `max_results` is 10. |
| `ArxivFeed.FirstAuthorName` | configs/04_hallucination_tools_rails/actions.py:55 | The author lookup finds a name exactly when some author has one. The name found is that of the first such author in document order. |
| `ArxivFeed.Year` | tools.py:63 | The year is a prefix of `published` of length four, or of its whole length when it is shorter. |
| `ArxivFeed.ToPaper` | utils.py:52-57 | An entry yields a paper exactly when its title, published date and an author name are all present and its date has text. A missing element fails with `AttributeError`. When all three are found but `published` is empty, the slice fails with `TypeError`. The paper holds the title text, the year of the date and the first author's name. |
| `ArxivFeed.Block` | utils.py:60 | Each block starts with `Title: ` and ends with a blank line. |
| `ArxivFeed.Papers` | utils.py:51-54 | All entries succeed exactly when every entry does. Then there is one paper per entry, and paper k comes from entry k. Otherwise the exception is that of the first entry that fails. |
| `ArxivFeed.FirstFailureDecides` | configs/04_hallucination_tools_rails/actions.py:52-55 | When entries before i succeed and entry i fails, the whole run fails with entry i's exception. |
| `ArxivFeed.Listing` | utils.py:48-63 | `papers_text` after the loop is the blocks of the papers joined in order. It is empty without papers and otherwise starts with the first paper's block. |
| `ArxivFeed.ListingIsEmpty` | tools.py:54-71 | The text is empty exactly when there are no papers. |
| `ArxivFeed.ListingAppend` | utils.py:63 | The text for `a + b` is the text for `a` followed by the text for `b`: the loop only appends and never rewrites. |
| `ArxivFeed.BlockInListing` | tools.py:57-69 | Block k of the text is the block of paper k. It comes after the blocks of the earlier papers and before those of the later ones. |
| `ArxivFeed.AtMostMaxResultsPapers` | configs/04_hallucination_tools_rails/actions.py:32-36 | When the service returns no more entries than the requested `max_results` and the call returns text, that text is made of one block per entry, so at most 10 blocks. |
| `ArxivFeed.FetchArxiv` | configs/04_hallucination_tools_rails/actions.py:42-68 | Only a `URLError` gives `None`. Only a `URLError` or a parsed feed gives a return value at all: an undecodable body raises `UnicodeDecodeError` and malformed XML raises `ParseError`, since neither is caught. An empty feed, and nothing else, gives `""`. Over a feed, the call returns text exactly when every entry succeeds, so no partial text escapes. |
| `ArxivFeed.BlockOfEntry` | utils.py:51-65 | When a feed's call returns text, that text is the listing of one paper per entry, paper k is read from entry k, and its block sits between the blocks of the entries before and after it. |
| `ArxivFeed.FetchArxivPapers` | utils.py:29-68 | The entry loop, whose invariant is that the accumulated text is the listing of the papers read so far, returns what `FetchArxiv` specifies. |
| `ListingText.BlockLines` | utils.py:60 | When title, year and author hold no newline, a block splits into exactly its `Title:`, `Year:` and `First Author:` lines, a blank line, and the empty remainder. |
| `ListingText.ListingLines` | utils.py:51-65 | When no field holds a newline, the returned text has `4 * n + 1` lines for `n` papers. Lines `4k` to `4k+3` are the block of paper k, in feed order. |
| `TopicRequest.TopicPayload` | configs/04_hallucination_tools_rails/actions.py:21-23 | The body has exactly the keys `inputs` and `parameters`. `parameters` is an empty object. `inputs` is the fixed prefix followed by the question verbatim, which can be recovered from it. |
| `TopicRequest.GeneratedText` | configs/04_hallucination_tools_rails/actions.py:26 | Extraction succeeds exactly when the answer is a non-empty list whose first element is an object holding `generated_text`. The result is that value. An empty list fails with `IndexError`, and a missing key with `KeyError`. |
| `TopicRequest.ExtractKeyTopic` | configs/04_hallucination_tools_rails/actions.py:9-26 | For the endpoint's answer to the request body, the call succeeds exactly when that answer is a non-empty list whose first element is an object holding `generated_text`, and then returns that value. |
| `TopicRequest.ExtractKeyTopicReturnsFirstText` | configs/04_hallucination_tools_rails/actions.py:17-26 | When the endpoint answers the request with a list whose first element is an object holding `generated_text`, that value is the result, whatever other keys that object has and whatever elements follow it. |
| `TopicRequest.ExtractKeyTopicFailsOnEmptyAnswer` | configs/04_hallucination_tools_rails/actions.py:19-26 | An empty answer list makes the extractor fail with `IndexError`. |
| `TopicRequest.PayloadDeterminesQuestion` | configs/04_hallucination_tools_rails/actions.py:22 | Distinct questions give distinct request bodies. |

## Left out

- The remote calls are not modelled:
  - the chat-completion `extract_key_topic` in `utils.py` and `tools.py`. It is only a remote call, and its answer is returned unchanged.
  - `requests.post` to the inference endpoint and its headers. The endpoint is the function parameter of `ExtractKeyTopic`.
  - `urlopen` and the read of the response. Their outcome is the `FetchOutcome` parameter.
- Only `URLError` is caught. Any other exception raised by `urlopen` or the read of the body, such as `http.client.IncompleteRead` or `ConnectionResetError`, escapes the call; `FetchOutcome` has no case for these.
- `response.json()` failing on a body that is not JSON is not modelled. JSON numbers are modelled as integers; the values are never inspected.
- XML parsing by `ET.fromstring`, `findall` and `find` is not modelled. `Entry` holds what those lookups return. An element's `.text` is taken as given, including the ElementTree rule that it stops at the first child element.
- URL construction by `quote` and `urlencode` is library code and is not modelled. Only the parameter map is stated. Because `urlencode` quotes the already quoted value again, the exact wire URL is not asserted.
- `EmailPattern.FindEmail`: the model decides only whether a match exists. The position and text of the match that `re.search` would report are not modelled, since both handlers keep only `match is not None`.
- `PrivacyRail.CheckEmail`: context values are strings. A `bot_message` that is another kind of value (a number, say) would make the search raise `TypeError`; the model does not represent such values.
- `configs/06_toxicity_implicit_output_rails/actions.py` (`check_safety`) is not part of this model. It is a remote classifier call followed by one string equality, `decision == 'safe'`.
- The `print` of the error message, `load_dotenv`, the environment key lookup, the `@action` registration and the `async` wrappers are not modelled. They are I/O and framework plumbing, and have no concurrency of their own.
