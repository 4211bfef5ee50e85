# COREP report assistant: report state and response shaping

This project is a Dafny model of two pieces of the PRA COREP assistant: the browser client's report
state and the service step that shapes the language model's reply into a response. The rest of the
system retrieves rules from a vector store, builds the prompt, calls the language model, and
transports or renders the result. Those parts are foreign calls or plumbing, listed under
"Left out".

- **The browser client's report state** (`frontend/src/App.tsx`). The client holds two report cells
  (`row_sovereign_exposure` and `row_retail_exposure`), a single-slot audit record `lastAudit`, the
  chat history, the input text and a `loading` flag. `handleSend` merges a completed answer from the
  analysis service into that state: the cell is last-write-wins and the audit record is replaced
  whole. `clearChat` empties the history and the audit record but keeps the table. From the same
  state the client computes the CSV export text and, for each row, the cell text and the highlight.
  Module `App` models this: a class `ReportApp` with the component's state as fields and the two
  handlers as methods, plus pure functions for the export and the display rules.
- **The analysis service's response shaping** (`backend/service.py`, the end of `get_rag_response`).
  The service removes Markdown code fences from the language model's reply and strips surrounding
  whitespace. It parses the result as JSON and builds an `AnalysisResponse` from it. Any exception on
  the way becomes a response whose text starts with `Error parsing Gemini response: ` and that carries
  no update. Module `Service` models this. `json.loads` and the pydantic validations are opaque
  function values held in a `Parsers` record.

Supporting modules: `Wrappers` (Option, Result), `Schemas` (the `CorepFieldUpdate` and
`AnalysisResponse` shapes of `backend/schemas.py`), `Text` (trimming, substring search, Python's
`replace(pat, "")`, and JavaScript's `join`, with `split` as its inverse).

What the code does not do:
- The code has no baseline snapshot and no deltas.
- The client has no manual-edit or upload path. The service's `/upload` route cannot succeed: it
  imports a `process_document` that `backend/service.py` does not define.
- The code does not reject an unknown field id. An update with an unknown id is written under a
  key no row reads, and it still replaces the audit record.
- `clearChat` does not reset the table. The reset is commented out.

## Model

| member | source | states |
|---|---|---|
| `App.ReportApp.constructor` | frontend/src/App.tsx:23-32 | Initial state: empty input and history, not loading, both cells null, no audit record |
| `App.ReportApp.SetInput` | frontend/src/App.tsx:120-122 | The input box's change handler replaces the input text and changes nothing else |
| `App.ReportApp.ClearChat` | frontend/src/App.tsx:35-40 | Empties the history and drops the audit record; keeps the table, the input and `loading`; its postcondition fixes the new state absolutely, so it is idempotent |
| `App.ClearChatTwice` | frontend/src/App.tsx:35-40 | Clearing twice leaves the same state as clearing once; the table, the input and `loading` are never touched |
| `App.ReportApp.HandleSend` | frontend/src/App.tsx:66-97 | Blank input: nothing changes, not even `loading` or the input. Otherwise it appends exactly the user message then the bot message (the service's text, or the fixed connection-error text), clears `loading` and the input. A received update is written to its cell and becomes the audit record whatever they held before. A failure, or an answer without an update, keeps the table and the audit record |
| `App.ReportApp.Respond` | frontend/src/App.tsx:69-96 | The send once the input is known not to be blank: appends the user message and then the bot reply, merges a received update into its cell and the audit record, keeps both on a failure or an answer without an update, and clears `loading` and the input |
| `App.BlankIffAllWhitespace` | frontend/src/App.tsx:67 | `!input.trim()` holds exactly when every character of the input is JavaScript whitespace |
| `App.WriteCell` | frontend/src/App.tsx:83-86 | Merging an update sets the cell named by its (unchecked) field id to the value, adds that key if new, and leaves every other key as it was |
| `App.LastWriteWins` | frontend/src/App.tsx:83-87 | Two updates to the same field leave the table as the second one alone would |
| `App.WritesCommute` | frontend/src/App.tsx:83-86 | Updates to different fields can be applied in either order |
| `App.UnknownFieldInvisible` | frontend/src/App.tsx:83-87 | An update whose field id names neither row changes neither the CSV text nor either cell's text, and highlights no row, although it becomes the audit record |
| `App.CellText` | frontend/src/App.tsx:150-158 | A cell shows "-" exactly when it is null; otherwise it shows "£", the rendered value and "m" |
| `App.RowClass` | frontend/src/App.tsx:147-154 | A row is highlighted exactly when there is an audit record whose field id is that row's id |
| `App.OneHighlightAtMost` | frontend/src/App.tsx:147-154 | At most one of the two rows is highlighted |
| `App.CsvLines` | frontend/src/App.tsx:45-51 | The export has the fixed header, then the sovereign row, then the retail row. Each row is `name, weight, value`, with null written as the rendering of 0 |
| `App.CsvIsThreeLines` | frontend/src/App.tsx:45-54 | When rendering a number never yields a newline, splitting the export text on newlines gives back exactly its three lines, and the text does not end in a newline |
| `App.ExportIsThreeLines` | frontend/src/App.tsx:45-54 | In every state the component keeps (`ReportApp.Valid`), the downloaded file `ReportApp.Csv` splits into the header, then the Central Governments line and the Retail Exposures line, each showing that row's current cell (an empty cell as 0), whenever rendering a number never yields a newline |
| `Text.TrimStart` | backend/service.py:92 | The result is a suffix of the input and does not start with a character of the whitespace set |
| `Text.TrimStartDropsOnlyWhitespace` | backend/service.py:92 | Every character the leading strip drops is whitespace |
| `Text.TrimEnd` | backend/service.py:92 | The result is a prefix of the input and does not end with a character of the whitespace set |
| `Text.TrimEndDropsOnlyWhitespace` | backend/service.py:92 | Every character the trailing strip drops is whitespace |
| `Text.Trim` | backend/service.py:92 | The result has no whitespace at either end (Python `strip()` here, JavaScript `trim()` at frontend/src/App.tsx:67) |
| `Text.TrimEmptyIffAllWhitespace` | frontend/src/App.tsx:67 | Trimming gives the empty string exactly when every character of the input is whitespace |
| `Text.TrimUnbordered` | backend/service.py:92 | A string with no whitespace at either end is unchanged by trimming |
| `Text.TrimIdempotent` | backend/service.py:92 | Trimming twice is trimming once |
| `Text.RemoveAll` | backend/service.py:92 | `replace(pat, "")` never lengthens the text and leaves a text without `pat` unchanged |
| `Text.SplitJoin` | frontend/src/App.tsx:54 | `join` with a separator no line contains is undone by splitting on that separator |
| `Service.RemoveFencesLeavesNone` | backend/service.py:92 | After `replace("```", "")` no triple backtick remains, although removal joins the text on either side of each fence |
| `Service.Clean` | backend/service.py:92 | The cleaned content contains no triple backtick and has no Python whitespace at either end; a reply without fences is only stripped |
| `Service.JsonFenceIsFence` | backend/service.py:92 | Wherever "```json" occurs, "```" occurs, so removing plain fences also catches every JSON fence |
| `Service.Unfence` | backend/service.py:92 | After both `replace` calls no triple backtick remains, and a reply that contained no fence is left exactly as it was |
| `Service.NoJsonFenceBeforeClosing` | backend/service.py:92 | In a fence-free text followed by a closing fence, the first `replace("```json", "")` finds nothing to remove |
| `Service.RemoveClosingFence` | backend/service.py:92 | The second `replace("```", "")` turns a fence-free text followed by a closing fence back into that text, including a text of one or two backticks |
| `Service.FencedReplyKeepsPayload` | backend/service.py:91-92 | A reply that is a fence-free payload wrapped in a JSON code fence ("```json", payload, "```") loses exactly the two fences: unfencing gives the payload, and cleaning gives the payload stripped |
| `Service.CleanFixedPoint` | backend/service.py:92 | Content with no fence and no whitespace at either end is left unchanged by cleaning |
| `Service.CleanIdempotent` | backend/service.py:92 | Cleaning already-cleaned content returns it unchanged |
| `Service.ShapeParsed` | backend/service.py:95-99 | Built from `ValidateUpdate` (`CorepFieldUpdate(**data["data_update"])`) and `ResponseText` (`data["response_text"]`). Soundness: a returned response's text is the validated `response_text`, and it carries an update exactly when `data_update` is present and truthy, that update being the validated four-field record. Completeness: whenever every part validates, a response is returned. A non-dict value and a missing `response_text` raise the matching Python error. With an update requested, the update is validated first: its error wins over a missing or invalid `response_text`; once no update error stands, a missing `response_text` raises `KeyError('response_text')` and an invalid one raises its validation error |
| `Service.ErrorReply` | backend/service.py:101-102 | The reply to an exception has no update, and its text is `Error parsing Gemini response: ` followed by the error's text, which can be read back from it |
| `Service.GetRagResponseTail` | backend/service.py:90-102 | A response is always returned, built through the `try` body `TryShape` (clean, `json.loads`, shape). A `json.loads` failure on the cleaned text, or a shaping failure of the parsed value, gives the `ErrorReply` for that error; a value that shapes is returned as shaped. A response with an update always comes from a cleaned, parsed and validated reply |

## Left out

- The global `vector_store` (`backend/service.py:20`, `27-46`) is mutable service state. It is
  filled at start-up and only read when building the prompt, and is not modelled.
- The `console.error` logging on the client's failure path (`frontend/src/App.tsx:91`) is not
  modelled; it changes no state.
- The language-model call, embeddings, the FAISS vector store, PDF loading and prompt construction
  (`backend/service.py:14-87`) are foreign library calls or prompt text, and are not modelled. The raw reply text is
  a parameter. `llm.invoke` at `backend/service.py:87` is outside the `try`, so its failures escape
  the handler; that path is not modelled.
- `json.loads` and the pydantic validations are parameters (`Service.Parsers`), not
  re-implementations. The texts of their exceptions come from those parameters.
- `Service.NotADictError` and `Service.ValidateUpdate` fix one wording per case for the TypeErrors
  Python raises on a non-dict parse result or a non-dict `data_update`. The wording is CPython 3.12's.
  It differs between Python versions.
- `response.content` is assumed to be a string. A list-valued content (a multi-part reply) would
  raise `AttributeError` inside the `try`. That path is not modelled.
- Exceptions that are not `Exception` subclasses (such as `KeyboardInterrupt`) are not modelled.
- Numbers are modelled as reals. Float formatting is a `show` parameter, and NaN and infinities
  (which Python's `json.loads` accepts) are not represented.
- Everything in `backend/main.py` is HTTP plumbing: routing, CORS, lifespan, and the `/upload`
  route, which imports a `process_document` that `backend/service.py` does not define. It is not
  part of this model. The client receives the service's `AnalysisResponse` directly, as
  `App.Outcome.Received`.
- The HTTP transport and `async`/`await` (`frontend/src/App.tsx:74-76`) are not modelled.
  `HandleSend` is one atomic step that is given the completed outcome.
- Interleavings are not modelled: two sends, or a send and a clear, overlapping across the `await`.
  Each handler builds its new history from the history it captured before the `await`
  (`frontend/src/App.tsx:69`, `79`, `92`), so a concurrent clear can be overwritten.
- The `disabled={loading}` button guard is not modelled. It is a concurrency guard, and the Enter
  key bypasses it.
- The DOM download mechanics, `encodeURI`, the `data:` URI prefix and the file name
  (`frontend/src/App.tsx:54-63`) are not modelled. The model covers the plain joined CSV text only.
- JSX layout is not modelled beyond each row's cell text and highlight class, and neither is the
  audit card's text.
