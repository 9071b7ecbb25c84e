# Medical prescription analyzer: session and workflow model

`app.py` is a Streamlit page that runs OCR over an uploaded prescription
image, stores the text in MongoDB, and relays chat questions (with the
prescription text as context) to the Mistral chat-completion API. Almost all
of it is glue to those services. This project models the thin layer of
session and workflow logic inside it, and proves properties of that model in
Dafny. Every outside service is an input value:

- `Ocr` — the normalisation in `extract_text_from_image`: an OCR exception
  gives `None`; an empty or absent result gives `"No text detected"`;
  anything else gives Python's `strip()` of the text.
- `Completion` — the part of `query_mistral_api` that checks the key and builds the
  system message. The HTTP exchange is a function parameter
  `service: Request -> Reply`. The function never raises: a missing key
  gives the fixed key error and a failed call gives
  `"Error querying Mistral API: " + reason`.
- `Selector` — the "Chat with Prescription Data" page:
  - the ordered selector options;
  - parsing a selected label back to a record with
    `int(label.split(" ")[1]) - 1`, including Python's negative indexing;
  - the `"All Prescriptions"` text;
  - the precedence: stored records, else the current extraction, else an
    early return with no chat panel.
- `Workflow` — a `Session` class holding `page`, `history` and `current`,
  the fields `st.session_state` holds. It has one method per step of a pass
  of `main` and `display_chat_interface`, and `Pass` for a whole pass:
  - the page is forced to the radio's value;
  - a database collection is requested only on the first two pages;
  - extraction, and the "Chat with this Prescription" button;
  - resolving the chat data;
  - a chat turn, which appends exactly one user message and one assistant
    message;
  - clearing the history.
  `Valid()` says that every user message is directly followed by its reply.
- `Strings` — the Python string operations used above: `strip()`,
  `split(" ")`, `join`, `str(n)` and `int(s)`. Each has its reference
  characterisation or round trip.
- `Scenarios` — sessions driven through several passes. One extracts a text,
  chats about it, and checks what reaches the service. Others show that the
  radio overrides the chat button, that N key-less turns leave 2N messages,
  and that clearing twice is the same as clearing once.

Python truthiness is modelled as the predicate `Truthy` on
`Option<string>`: `None` and `""` both count as absent. This matters at
app.py lines 84, 140, 205 and 261.

The model follows the code as written, including three behaviours a reader
of the page might not expect:

- The "Chat with this Prescription" button sets `page` to the chat page and
  reruns. On that rerun the radio still shows "Extract Text", so lines
  177-179 put the page back (`Scenarios.RadioOverridesChatButton`). The
  extracted text does stay current.
- OCR output made only of whitespace becomes `""`. The extraction page then
  offers no follow-on action (`Ocr.OfferedIff`). Only an empty or absent
  result becomes the truthy `"No text detected"`.
- The chat data is resolved again on every pass of the chat page, not only
  when the page is entered.

## Model

| member | source | states |
|---|---|---|
| `Strings.TrimStart` | app.py:47 | the result is a suffix of the input, all that was dropped is whitespace, and it does not start with whitespace |
| `Strings.TrimEnd` | app.py:47 | the result is a prefix of the input, all that was dropped is whitespace, and it does not end with whitespace |
| `Strings.Strip` | app.py:47 | `strip()` returns a string that neither starts nor ends with whitespace |
| `Strings.StripIsTrimmedSlice` | app.py:47 | `strip()` returns a slice of the input with only whitespace outside it |
| `Strings.StripUnique` | app.py:47 | reference characterisation: whitespace + trimmed middle + whitespace strips to exactly the middle |
| `Strings.StripAllSpace` | app.py:47 | whitespace-only (or empty) text strips to `""` |
| `Strings.StripKeepsNonSpace` | app.py:47 | text with a non-whitespace character never strips to `""` |
| `Strings.StripIdempotent` | app.py:47 | stripping twice is stripping once |
| `Strings.Split` | app.py:291 | `split(" ")` gives at least one field and no field contains the separator |
| `Strings.SplitAfter` | app.py:291 | a separator-free first field, then the separator, splits into that field followed by the split of the rest |
| `Strings.SplitAfterless` | app.py:291 | a string without the separator is a single field |
| `Strings.JoinSplit` | app.py:291 | joining the fields of a split with the separator gives the string back |
| `Strings.SplitJoin` | app.py:285-291 | splitting a join of separator-free fields gives the fields back |
| `Strings.Join` | app.py:285-286 | joining nothing gives `""`; otherwise the join starts with the first part |
| `Strings.JoinLength` | app.py:285-286 | a join ends exactly where its last part ends: the last part's offset plus its length |
| `Strings.JoinEnds` | app.py:285-286 | a join starts with its first part and ends with its last part |
| `Strings.JoinAt` | app.py:285-286 | in a join, part k occurs at its offset |
| `Strings.JoinSeparatorAfter` | app.py:285-286 | in a join, every part but the last is directly followed by the separator |
| `Strings.JoinInOrder` | app.py:285-286 | for i < j, part i of a join lies before part j, and is directly followed by the separator |
| `Strings.OffsetIncreases` | app.py:285-286 | in a join, part i and a separator end before part j starts, for i < j |
| `Strings.NatToString` | app.py:273 | `str(n)` is a non-empty string of decimal digits, with no leading zero unless n is 0 |
| `Strings.NatToStringInjective` | app.py:273 | different numbers give different `str(n)` |
| `Strings.LeadingDigitsOf` | app.py:273-285 | digits followed by a non-digit: the leading digit run is exactly those digits |
| `Strings.DigitsThenRest` | app.py:273-285 | a digit run followed by a non-digit splits off in only one way |
| `Strings.NatToStringHasNoSpace` | app.py:273 | `str(n)` contains no space |
| `Strings.ParseInt` | app.py:291 | `int(s)` succeeds exactly on an optional sign followed by digits |
| `Strings.DigitsOfNat` | app.py:273 | the digits of `str(n)` have the value n |
| `Strings.ParseNatToString` | app.py:291 | round trip `int(str(n)) == n` |
| `Ocr.Normalise` | app.py:43-50 | the result is `None` exactly when OCR raised; any returned value is trimmed |
| `Ocr.NormaliseTrimmed` | app.py:46-47 | non-empty text without surrounding whitespace comes back unchanged |
| `Ocr.NormaliseStrips` | app.py:46-47 | non-empty OCR text comes back as its middle between leading and trailing whitespace |
| `Ocr.NormaliseWhitespaceOnly` | app.py:47 | non-empty whitespace-only OCR text gives `""` |
| `Ocr.NormaliseEmpty` | app.py:47 | empty or absent OCR output gives exactly `"No text detected"` |
| `Ocr.OfferedIff` | app.py:203-205 | the extracted text is truthy iff OCR returned, and returned either nothing or some non-whitespace character |
| `Completion.SystemMessage` | app.py:84-88 | truthy data: the analysing prefix, then `"\nPrescription data: "`, then the data verbatim; otherwise exactly the generic message |
| `Completion.SystemMessageInjective` | app.py:84-86 | different non-empty data give different system messages |
| `Completion.SystemMessageDistinguishes` | app.py:84-88 | a message with data never equals the generic message |
| `Completion.BuildRequest` | app.py:84-104 | the user message is the prompt; the system message is the analysing prefix, the context prefix and the data when the data is truthy, and exactly the generic message otherwise |
| `Completion.Query` | app.py:74-117 | no key or an empty key: exactly the key error; failed call: the failure prefix plus the reason; otherwise the completion content |
| `Completion.KeyMissingIgnoresService` | app.py:77-78 | without a key the answer does not depend on the service |
| `Completion.QueryDependsOnlyOnRequest` | app.py:109-114 | the answer depends on the service only through its reply to the one request built |
| `Selector.RecordLabel` | app.py:273 | a record label is `"Prescription "`, then `str(i+1)` and `" - "`, and ends with the date label |
| `Selector.Entry` | app.py:285 | a block is `"Prescription "`, then `str(i+1)` and `":\n"`, and ends with the record's text |
| `Selector.RecordLabels` | app.py:273-274 | label i is `"Prescription {i+1} - {date_i}"`, in fetched order |
| `Selector.Entries` | app.py:285-286 | block i is `"Prescription {i+1}:\n" + text_i`, in fetched order |
| `Selector.Options` | app.py:273-279 | length n+2 or n+1; `"Current Extracted Prescription"` first only when there is a current text; then `"All Prescriptions"`; then every record label in order |
| `Selector.BuildOptions` | app.py:273-279 | the comprehension and the two `insert(0, …)` calls build exactly those options |
| `Selector.AllPrescriptions` | app.py:284-286 | no records give `""`; otherwise the text starts with record 1's block and ends with the last record's block |
| `Selector.PyIndex` | app.py:291-292 | `records[idx]` succeeds exactly when `-n <= idx < n`, and then gives the record at `idx` taken modulo n (negative positions count from the end) |
| `Selector.SelectData` | app.py:283-292 | any data a selection yields is the current text, the all-prescriptions text or the text of some record |
| `Selector.LabelOrdinalField` | app.py:291 | the second `split(" ")` field of record label i is `str(i+1)`, whatever the date label contains |
| `Selector.SelectRecordLabel` | app.py:290-292 | selecting record i's label yields exactly record i's text |
| `Selector.SelectOption` | app.py:281-292 | every offered option selects without an exception, and gives the current text, the all-prescriptions text, or its record's text |
| `Selector.AllPrescriptionsInOrder` | app.py:284-286 | for i < j, record i's block lies wholly before record j's block, and record i's block is directly followed by `"\n\n"` |
| `Selector.AllPrescriptionsOfTwo` | app.py:285-286 | with two records, the text is exactly block 1, a blank line, then block 2 |
| `Selector.EntryInjective` | app.py:285 | a block identifies its record: equal blocks have the same position and the same text |
| `Selector.Resolve` | app.py:261-306 | no chat panel exactly when there are no stored records and no truthy current text; without stored records a truthy current text is used directly |
| `Selector.ResolveUsesSelector` | app.py:267-292 | with stored records, the chosen option decides the data |
| `Selector.ResolveEmptyCurrentIsAbsent` | app.py:261 | an empty current text behaves exactly like an absent one |
| `Workflow.NameInjective` | app.py:173-177 | comparing the stored page strings is comparing pages |
| `Workflow.AcquiresCollection` | app.py:185-187 | a collection is requested iff the page is "Extract Text" or "Chat with Prescription Data" |
| `Workflow.Paired` | app.py:142-153 | a paired history alternates user and assistant messages, position 2k a question and 2k+1 its reply |
| `Workflow.Turn` | app.py:140-153 | a turn appends two messages to an unchanged history: the user's query, then the assistant's reply |
| `Workflow.TurnKeepsPaired` | app.py:140-153 | a turn keeps every user message paired with its reply |
| `Workflow.Replay` | app.py:140-153 | after N turns the history has grown by exactly 2N and the earlier messages are unchanged |
| `Workflow.ReplayInOrder` | app.py:140-153 | after N turns, exchange k sits at positions 2k and 2k+1 after the earlier history, question before reply, in call order, and pairing is kept |
| `Workflow.AfterQuery` | app.py:140-153 | a truthy query adds exactly two messages after the unchanged history, the user's query then the reply `Query` gives; any other query adds none; pairing is kept |
| `Workflow.AfterClear` | app.py:160-161 | a press empties the history, otherwise it is unchanged; pairing is kept |
| `Workflow.Session.Valid` | app.py:140-161 | the session invariant: a non-empty history ends with an assistant message |
| `Workflow.Session.constructor` | app.py:172-173 | a new session is on "Extract Text" with an empty history and no current text (history and current start out at lines 128-129 and 324-325) |
| `Workflow.Session.Reconcile` | app.py:176-179 | afterwards page equals the radio value; a rerun exactly when it changed; nothing else changes |
| `Workflow.Session.Extract` | app.py:201-253 | the extracted text is `Normalise(ocr)`; a truthy text with the chat button pressed becomes current and switches to the chat page with a rerun; otherwise nothing changes |
| `Workflow.Session.ChatPageData` | app.py:257-306 | the imperative resolution computes `Resolve` |
| `Workflow.Session.SubmitQuery` | app.py:140-153 | a truthy query appends exactly the user message and then the reply `Query` gives; otherwise the history is unchanged; page and current untouched |
| `Workflow.Session.ClearHistory` | app.py:160-162 | a press empties the history and reruns when it was non-empty; nothing else changes |
| `Workflow.Session.ChatPanel` | app.py:119-162 | the history after one panel pass is the query turn followed by the clear; a rerun exactly when a press meets a non-empty history; page and current untouched |
| `Workflow.Session.Pass` | app.py:164-320 | one pass of `main`: a radio change reruns at once and changes nothing else; otherwise a collection is requested by page, and per page the whole new state (page, current, history), the panel and the rerun are exactly the extraction, chat-resolution and chat-panel effects above |
| `Scenarios.ExtractThenChat` | app.py:201-292 | extract, chat button, chat page, first option: the data is the extracted text, the service gets it in the system message, and the history is the one question and its answer |
| `Scenarios.RadioOverridesChatButton` | app.py:176-253 | as written, the next pass returns to "Extract Text" when the radio stays there; the text stays current |
| `Scenarios.TurnsWithoutKey` | app.py:74-153 | without a key, N queries leave 2N messages, each reply the fixed key error |
| `Scenarios.ClearTwice` | app.py:160-161 | clearing an already-cleared history leaves it empty |

## Left out

- OCR with `pytesseract`, the Tesseract path setup and image decoding with
  PIL (lines 13-19, 197-198): the OCR outcome is the input `OcrOutput`.
- MongoDB (lines 21-41, 52-72): connection, ping, `insert_one`, `find`, and
  the sort by `upload_date`.
  - The store is the input `StoreView`, with records already in fetched
    order.
  - A fetch that raises returns `[]` in the source, so it is
    `Reachable([])`.
  - "Submit to Database" (lines 214-220) and "View Stored Prescriptions"
    (lines 223-235) only talk to the store or render. They are not modelled.
- The HTTP request, headers, JSON payload, `raise_for_status` and response
  parsing (lines 91-114): a foreign call, modelled as the `service`
  parameter.
  - A non-string `content` value from the response is not modelled.
  - Model name, temperature and token limit are constants sent over the
    wire and play no part here.
- `dotenv` and environment variables: the API key is the parameter
  `apiKey`.
- `datetime.now()` and the date's string form: the date label is an opaque
  string.
- Streamlit rendering: titles, subheaders, placeholders, text areas, the
  expander, and the info and warning messages. The two early-exit messages
  (lines 298 and 305) are not told apart.
- Widget mechanics. The nested buttons are modelled as if pressed in the
  same pass as "Extract Text"; in real Streamlit they are not. A rerun is
  the end of a pass.
- Session isolation and concurrency: one session, serialised passes.
- `Strings.ParseInt`: models `int()` on an optional sign and ASCII digits
  only. Python also accepts surrounding whitespace, underscores and
  non-ASCII digits. No label the selector builds contains these.
- `Workflow.Session.Pass`: requires the selector's position to be one of the
  offered options, as Streamlit's selectbox guarantees.
