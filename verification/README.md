# Routing coordinator and simulated search tool (agentic design patterns)

This project models the two pieces of deterministic logic in the
`agentic-design-patterns` demo scripts and proves what they promise.

- **The routing coordinator** (`Routing/01-Rounting.py`). A language model
  answers a request with a one-word decision. `delegation_branch` strips the
  decision and compares it case-sensitively, first with `booker` and then
  with `info`. Anything else goes to the default arm. The chosen handler
  (`booking_handler`, `info_handler` or `unclear_handler`) is called through
  `log_and_call` on `x['request']`, never on the decision. It returns a
  fixed-format reply, and `coordinator_agent` extracts that reply as its
  result. The `"request"` entry of `coordinator_agent` is a pass-through, so
  `x['request']` is the whole invoke input. The demo invokes it with the
  dict `{"request": r}`, so each handler's f-string prints that dict,
  `{'request': '...'}`, not the request alone. The model covers both this
  as-written behaviour and the intended one (see "## Findings"). The
  model's answer is nondeterministic, so the decision is an arbitrary input
  string here.
- **The simulated search tool** (`05-Tooluse/00.py`, `search_information`).
  On every call it builds a five-entry table: four facts plus a `"default"`
  entry that quotes the query. It then looks up `query.lower()`, falling
  back to the `"default"` entry.

Files:

- `pystr.dfy`, module `PyStr`: the Python `str` operations the core uses.
  `Strip` is `str.strip()`, built from `LStrip` and `RStrip`. It removes
  Python's whole `str.isspace()` set: ASCII 0x09-0x0D, 0x1C-0x1F and the
  space, plus U+0085, U+00A0, U+1680, U+2000-U+200A, U+2028, U+2029, U+202F,
  U+205F and U+3000. `Lower` is `str.lower()`, restricted to ASCII letters.
  `Repr` is `repr()` of a string: the dict's printed form is built from it.
  `Unescape` reads its output back.
- `routing.dfy`, module `Routing`: the decision dispatch, the handlers and
  the coordinator.
  - `Route` is the three targets.
  - `FirstMatch` is the branch construct: the first arm whose guard holds
    wins, else the default arm. `Decide` applies it to the two arms. Each
    guard in the source strips the decision itself. `strip()` has no side
    effect, so here the decision is stripped once and every guard is given
    the result.
  - `BookingHandler`, `InfoHandler` and `UnclearHandler` are the handlers;
    `Handle` is the table of the three arms.
  - `Input` is what `coordinator_agent.invoke` is given: a bare string, or
    the one-key dict the demo passes. `Formatted` is what a handler's
    f-string prints for it.
  - `LogAndCall`, `DelegationBranch` and `Coordinate` are the pipeline as
    written. `CoordinateIntended` is the pipeline with the handler given the
    request text.
  - `ParseReply` reads a reply back into its route and request. It is the
    inverse that the round-trip lemmas use.
- `search_tool.dfy`, module `SearchTool`: `Facts`, `DefaultMessage`,
  `SimulatedResults` (the table built per call) and `Lookup` (the tool).

## Model

| member | source | states |
|---|---|---|
| PyStr.LStrip | agentic-design-patterns/Routing/01-Rounting.py:75-76 | The result is the suffix of the input left after removing every leading whitespace character; it is empty or starts with a non-space |
| PyStr.RStrip | agentic-design-patterns/Routing/01-Rounting.py:75-76 | The result is the prefix left after removing every trailing whitespace character; it is empty or ends with a non-space |
| PyStr.Strip | agentic-design-patterns/Routing/01-Rounting.py:75-76 | `strip()` leaves no whitespace at either end and never lengthens the string |
| PyStr.LStripPadded | agentic-design-patterns/Routing/01-Rounting.py:75-76 | Leading whitespace in front of a string that does not start with a space is removed exactly |
| PyStr.RStripPadded | agentic-design-patterns/Routing/01-Rounting.py:75-76 | Trailing whitespace after a string that does not end with a space is removed exactly |
| PyStr.StripPadded | agentic-design-patterns/Routing/01-Rounting.py:75-76 | Stripping any whitespace padding around a trimmed string gives back that string |
| PyStr.StripSplits | agentic-design-patterns/Routing/01-Rounting.py:75-76 | Every string is its stripped form with whitespace on both sides; with StripPadded this characterises `strip()` |
| PyStr.StripTrimmed | agentic-design-patterns/Routing/01-Rounting.py:75-76 | A string with no outer whitespace is unchanged by `strip()` |
| PyStr.StripIdempotent | agentic-design-patterns/Routing/01-Rounting.py:75-76 | Stripping twice equals stripping once |
| PyStr.LowerChar | agentic-design-patterns/05-Tooluse/00.py:46 | An ASCII capital maps to the letter 32 code points above it; every other character is kept; no capital remains |
| PyStr.Lower | agentic-design-patterns/05-Tooluse/00.py:46 | `lower()` keeps the length and lower-cases each character in place |
| PyStr.LowerFixesLowerCase | agentic-design-patterns/05-Tooluse/00.py:46 | The lower-case form has no capitals, and a string equals its lower-case form exactly when it has no capitals |
| PyStr.LowerIdempotent | agentic-design-patterns/05-Tooluse/00.py:46 | Lower-casing twice equals lower-casing once |
| PyStr.HexDigit | agentic-design-patterns/Routing/01-Rounting.py:27 | The hexadecimal digit written for `n` reads back as `n` |
| PyStr.EscapeChar | agentic-design-patterns/Routing/01-Rounting.py:27 | Each character is written as one to four characters; a character written without a leading backslash is written as itself (what each escape reads back as is stated by UnescapeEscapeChar) |
| PyStr.UnescapeEscapeChar | agentic-design-patterns/Routing/01-Rounting.py:27 | Reading one written character back gives that character, whatever follows it |
| PyStr.Repr | agentic-design-patterns/Routing/01-Rounting.py:27 | `repr()` of a string opens and closes with the same quote, chosen by the quotes it contains, and is at least two characters longer than the string |
| PyStr.UnescapeEscapeAll | agentic-design-patterns/Routing/01-Rounting.py:27 | Reading the escaped text back gives the original string |
| PyStr.ReprRoundTrip | agentic-design-patterns/Routing/01-Rounting.py:27 | `repr()` loses nothing: the text between its quotes reads back as the string |
| PyStr.ReprInjective | agentic-design-patterns/Routing/01-Rounting.py:27 | Different strings have different `repr()`s |
| PyStr.ReprPlain | agentic-design-patterns/Routing/01-Rounting.py:27 | Printable ASCII text with no quote or backslash is written between single quotes unchanged |
| Routing.FirstMatch | agentic-design-patterns/Routing/01-Rounting.py:74-78 | Trying the arms in order from arm `k`, the branch takes the first arm whose guard holds; if no guard holds it takes the default arm |
| Routing.Decide | agentic-design-patterns/Routing/01-Rounting.py:74-78 | Booker exactly when the stripped decision is `booker`; Info exactly when it is `info`; Unclear exactly when it is neither. So exactly one handler is selected |
| Routing.DecideIgnoresPadding | agentic-design-patterns/Routing/01-Rounting.py:75-76 | Whitespace added before or after a trimmed decision never changes the route |
| Routing.DecideOtherTrimmed | agentic-design-patterns/Routing/01-Rounting.py:74-78 | Any trimmed decision other than the two keywords is routed to the unclear handler, without error |
| Routing.DecideFallbackExamples | agentic-design-patterns/Routing/01-Rounting.py:74-78 | `unclear`, the empty string, `BOOKER`, `booker.` and `info booker` all go to the unclear handler; comparison is case-sensitive and exact |
| Routing.DecidePaddedExample | agentic-design-patterns/Routing/01-Rounting.py:75 | ` booker\n` still selects the booking handler |
| Routing.BookingHandler | agentic-design-patterns/Routing/01-Rounting.py:24-27 | The reply starts with the booking prefix and ends with the booking suffix, and what lies between them is the handler's argument verbatim |
| Routing.InfoHandler | agentic-design-patterns/Routing/01-Rounting.py:29-32 | The reply is framed by the info prefix and suffix, with the argument verbatim between them |
| Routing.UnclearHandler | agentic-design-patterns/Routing/01-Rounting.py:34-37 | The reply is framed by the unclear prefix and suffix, with the argument verbatim between them |
| Routing.Handle | agentic-design-patterns/Routing/01-Rounting.py:24-37 | Each arm's reply is its fixed prefix, the argument verbatim, then its fixed suffix; the six fixed texts are those of the three f-strings |
| Routing.ParseReply | agentic-design-patterns/Routing/01-Rounting.py:24-37 | Whatever a reply is read back as, that handler on that request produces exactly this reply |
| Routing.ParseReplyRoundTrip | agentic-design-patterns/Routing/01-Rounting.py:24-37 | Reading a handler's reply back recovers both the handler and the request it was given |
| Routing.HandleInjective | agentic-design-patterns/Routing/01-Rounting.py:24-37 | Two replies are equal only when the same handler processed the same request |
| Routing.Formatted | agentic-design-patterns/Routing/01-Rounting.py:27 | What the f-string prints for the handler's argument: a string prints as itself; the dict `{"request": r}` prints at least 15 characters longer than `r` (its text is stated by FormattedDict and FormattedPlain) |
| Routing.FormattedDict | agentic-design-patterns/Routing/01-Rounting.py:27 | The dict's text is 13 characters longer than `repr(r)`, and between its 12-character opening and its closing character lies exactly `repr(r)`, so the request is quoted in full with Python's escapes |
| Routing.FormattedDictInjective | agentic-design-patterns/Routing/01-Rounting.py:27 | Different requests give different dict texts, so the handler's reply still determines the request |
| Routing.FormattedPlain | agentic-design-patterns/Routing/01-Rounting.py:99 | The dict with a plain request prints as `{'request': '` then the request then `'}` |
| Routing.LogAndCall | agentic-design-patterns/Routing/01-Rounting.py:60-62 | The handler's reply reads back as the selected route and `x['request']` as the f-string prints it; the decision is not passed on |
| Routing.DelegationBranch | agentic-design-patterns/Routing/01-Rounting.py:65-78 | The branch passes its input through, decision and request unchanged, and its output reads back as the route the decision selects with the printed request |
| Routing.Coordinate | agentic-design-patterns/Routing/01-Rounting.py:84-87 | As written: the result reads back as the route the decision selects and the whole invoke input as the f-string prints it |
| Routing.CoordinateReply | agentic-design-patterns/Routing/01-Rounting.py:71-72 | Intended behaviour: the result is the selected handler's reply to the request text; reading it back yields that route and the request unchanged |
| Routing.CoordinateQuotesDict | agentic-design-patterns/Routing/01-Rounting.py:84-87 | As written, with the demo's dict input: the reply quotes the dict's text, and it never equals the intended reply |
| Routing.CoordinateDictPlain | agentic-design-patterns/Routing/01-Rounting.py:97-110 | With the demo's dict input and a plain request, the result is the selected handler's prefix, `{'request': '`, the request, `'}`, then the handler's suffix |
| Routing.DemoRequestsPlain | agentic-design-patterns/Routing/01-Rounting.py:98-108 | The three demo requests contain no character that `repr()` escapes |
| Routing.CoordinateDependsOnRouteOnly | agentic-design-patterns/Routing/01-Rounting.py:60-62 | For any invoke input, the decision's text matters only through the route it selects; the handler never sees the decision |
| Routing.CoordinateBookingExample | agentic-design-patterns/Routing/01-Rounting.py:97-100 | Decision `booker` on `{"request": "Book me a flight to London"}` yields `Booking Handler processed request: '{'request': 'Book me a flight to London'}'. Result: 'Simulated booking action.'` |
| Routing.CoordinateInfoExample | agentic-design-patterns/Routing/01-Rounting.py:102-105 | Decision `info` on `{"request": "What is the capital of France?"}` yields the info handler's reply quoting `{'request': 'What is the capital of France?'}` |
| Routing.CoordinateUnclearExample | agentic-design-patterns/Routing/01-Rounting.py:107-110 | Decision `unclear` on `{"request": "What is the meaning of life?"}` yields the unclear handler's reply quoting `{'request': 'What is the meaning of life?'}` |
| SearchTool.DefaultMessage | agentic-design-patterns/05-Tooluse/00.py:44 | The default message is the fixed prefix, the query verbatim in its original case, then the fixed suffix; it is 95 characters longer than the query |
| SearchTool.SimulatedResults | agentic-design-patterns/05-Tooluse/00.py:39-45 | The table has the four fact topics plus `default`; `default` holds the message for this query and the topics hold their facts |
| SearchTool.Lookup | agentic-design-patterns/05-Tooluse/00.py:46 | A query whose lower-case form is a stored topic gets that topic's fact; any other query gets the default message quoting the query |
| SearchTool.LookupTotal | agentic-design-patterns/05-Tooluse/00.py:39-46 | The tool never fails: its result is one of the four facts or this query's default message |
| SearchTool.FactIsNotDefault | agentic-design-patterns/05-Tooluse/00.py:39-44 | No stored fact equals any default message |
| SearchTool.LookupFallsBackIff | agentic-design-patterns/05-Tooluse/00.py:44-46 | The result is the default message exactly when the lower-cased query is not a stored topic |
| SearchTool.DefaultMessageInjective | agentic-design-patterns/05-Tooluse/00.py:44 | Different queries get different default messages |
| SearchTool.LookupCaseInsensitive | agentic-design-patterns/05-Tooluse/00.py:46 | Two queries with the same lower-case form, when that form is a stored topic, get the same fact |
| SearchTool.LookupUnmatchedKeepsCase | agentic-design-patterns/05-Tooluse/00.py:44-46 | Two unmatched queries get the same result exactly when they are the same string, so re-cased spellings of an unknown topic differ |
| SearchTool.LookupLengthMismatch | agentic-design-patterns/05-Tooluse/00.py:46 | Matching is exact, with no trimming or substring search: a query whose length is no topic's length gets the default message |
| SearchTool.LookupExactMatchExample | agentic-design-patterns/05-Tooluse/00.py:85 | "What is the capital of France?" contains a topic but gets the default message |
| SearchTool.LookupDefaultKey | agentic-design-patterns/05-Tooluse/00.py:44-46 | A query that lower-cases to `default` hits the `default` entry and gets the same message as an unmatched query |
| SearchTool.LookupDocstringHit | agentic-design-patterns/05-Tooluse/00.py:31-33 | Any spelling of the docstring's phrase 'capital of France' that lower-cases to the topic gets "The capital of France is Paris." |
| SearchTool.LookupDocstringMiss | agentic-design-patterns/05-Tooluse/00.py:31-33 | The docstring's other phrase, 'weather in London?', misses the table because of its question mark and gets the default message |
| SearchTool.LookupUnmatchedExample | agentic-design-patterns/05-Tooluse/00.py:44-46 | An illustration: `dogs` and `Dogs` share a lower-case form but get different default messages |

## Left out

- The language model: `ChatOpenAI` construction, the router prompt, `StrOutputParser` and the classification call. The decision is an unconstrained input string instead.
- The internals of `RunnableBranch`, `RunnablePassthrough.assign`, the `@langchain_tool` decorator and `create_react_agent`'s reasoning loop. These are library code that is not part of this model. Only the guards, the handlers, the pass-through of the input keys and the tool body are modelled.
- `run_agent_with_tool`, `main` and the `asyncio.gather` / `nest_asyncio` driver in `05-Tooluse/00.py`. These are concurrent I/O with per-query exception printing.
- Every `print` call, including the log line in `log_and_call`, plus `load_dotenv` and the commented-out `getpass`. These are console and environment I/O.
- `prompt-chaining/00.py`. It only pipes two prompt templates through model calls and does no parsing or validation of its own.
- PyStr.Lower: only ASCII `A`-`Z` are lower-cased. Other characters are kept, whereas Python's `str.lower()` follows full Unicode case mapping. For the tool, hits and misses come out the same. Only two non-ASCII characters lower-case to something holding an ASCII letter: U+212A KELVIN SIGN becomes `k`, and U+0130 LATIN CAPITAL LETTER I WITH DOT ABOVE becomes `i` followed by U+0307 COMBINING DOT ABOVE. No stored topic contains `k` or U+0307.
- PyStr.Repr: non-ASCII characters are kept as they are. Python escapes the non-ASCII ones it counts as non-printable (U+00A0 becomes `\xa0`, for example), and that set comes from the Unicode database. For printable ASCII, which the demo's requests are, the model is exact.
- Routing.Formatted: only a bare string and the one-key dict `{"request": r}` are modelled as invoke inputs. Those are the two forms the coordinator is meant for and the one the demo uses. Other dicts and non-string values are not modelled.
- Literal re-cased spellings such as `"Capital of France"` or `"CAPITAL OF FRANCE"` are not stated one by one. Evaluating `Lower` on long literals is too costly for the verifier. LookupDocstringHit states the result for every spelling that lower-cases to the topic, and Lookup and LookupCaseInsensitive state the general case.

## Findings

| source | as written | input that shows it | evidently intended | confidence | as-written member | corrected member |
|---|---|---|---|---|---|---|
| agentic-design-patterns/Routing/01-Rounting.py:84-87 | `"request": RunnablePassthrough()` hands the whole invoke input to the handler, so the f-string at line 27 prints the dict `{'request': '...'}` | `coordinator_agent.invoke({"request": "Book me a flight to London"})` (line 99) returns `Booking Handler processed request: '{'request': 'Book me a flight to London'}'. Result: 'Simulated booking action.'` | the handler is given the request text, as the comment at line 72 and the `request: str` annotations at lines 24, 29 and 34 say | not executed; high | Routing.CoordinateQuotesDict | Routing.CoordinateReply |
