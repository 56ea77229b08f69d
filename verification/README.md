# Canvas chat application: decision and sequencing rules in Dafny

This project models the logic of a chat-and-document-canvas web application.
Most of that application is UI and glue around a hosted language-model SDK, a
managed Postgres/auth service and a DOCX converter. What has real logic is a
set of deterministic rules, and each is a total function here:

- **Canvas version navigator** (`Canvas`). This covers the prev/next/toggle/latest
  buttons over the version list, the "is current version" test, the safe lookup
  of a version's content, the effect that runs when versions load, and the
  client-side rule that appends a version only when the content changed.
- **Chat endpoint** (`ChatRoute`, `ChatTools`). This covers:
  - the order of the 500/401/404/400 checks, all made before anything is written, and the
    500 that a throwing store or title call produces part-way through;
  - the static model-id → prompt/tool-set mapping;
  - the out-of-band events each document tool emits, as a fold over the generation stream;
  - the draft as the concatenation of text deltas;
  - suggestion records;
  - the completion callback;
  - `DELETE`.
- **File upload** (`FileUpload`). This covers the size/MIME validator with joined
  messages, the title taken from the file name, and the status decision.
- **Document version log** (`DocumentRoute`). This covers `GET`/`POST`/`PATCH`
  over an append-only log, with ownership decided by the first stored row.
- **Session middleware** (`AuthMiddleware`). This is the three-way redirect rule,
  including a no-redirect-loop property.

Supporting modules:
- `Options` holds JavaScript `null`/`undefined` and `??`.
- `Http` holds the status codes.
- `Text` holds `includes`, `split` and `join`.
- `Store` holds the rows. A table is a `seq` of rows in insertion order.

External calls are replaced by inputs: the current user, lookup results,
stream parts, structured elements, conversion results, fresh ids and timestamps.
A store call that throws is an input too: a boolean for each call of the
document endpoints, chat `DELETE`, the completion callback and the upload,
and a `Failure` value naming the one awaited call that throws in chat `POST`.
On the client, `postFails` says whether the canvas's save `fetch` rejects.
A request body that is not JSON is `None` (or, in chat `POST`, `bodyParses`
false). A missing query-string `id` and an empty one are both written `""`:
both are falsy and take the same branch.

## Model

| member | source | states |
|---|---|---|
| Canvas.HandleVersionChange | src/components/custom/canvas.tsx:183-204 | With no list loaded nothing changes. `Latest` selects the last version in edit mode. `Toggle` flips the mode and keeps the index. `Prev` moves back exactly when the index is above 0 and `Next` moves forward exactly when it is below length−1; both keep the mode. |
| Canvas.NavigateStaysInRange | src/components/custom/canvas.tsx:195-203 | From an index in [−1, length−1], any sequence of button presses stays in that range. Once the index is ≥ 0 it never goes below 0. |
| Canvas.InitialNavigatorStaysInRange | src/components/custom/canvas.tsx:90-92 | A canvas opened at index −1 in edit mode stays on the version list (or at −1) whatever buttons are pressed. |
| Canvas.PrevNextInverse | src/components/custom/canvas.tsx:195-203 | Inside the list, `Prev` then `Next` (and `Next` then `Prev`) return to the same version whenever the first move happens. |
| Canvas.ToggleInvolution | src/components/custom/canvas.tsx:191-193 | Toggling twice restores the navigator. |
| Canvas.IsCurrentVersion | src/components/custom/canvas.tsx:214 | With no list loaded, or an empty one, the canvas counts as current. With a non-empty list, it is current iff the index is the last one. |
| Canvas.LatestIsCurrent | src/components/custom/canvas.tsx:186-214 | After `Latest` the canvas is on the current version. At the current version of a non-empty list, `Next` changes nothing. |
| Canvas.ContentAt | src/components/custom/canvas.tsx:177-181 | The content is "" when the list is absent or the index is out of range (negative included). Otherwise it is the row's content, or "" when that is null. |
| Canvas.DiffPanes | src/components/custom/canvas.tsx:460-463 | Inside the list, the diff compares the stored contents of the previous and the selected version (null as ""). At index 0 the old side is "". With no list both sides are "". |
| Canvas.FirstVersionDiffsAgainstEmpty | src/components/custom/canvas.tsx:460-463 | The diff view of the first version compares "" (index −1) with that version's content. |
| Canvas.OnDocumentsLoaded | src/components/custom/canvas.tsx:94-107 | A non-empty list selects its last row and sets the index to length−1 and the canvas text to that row's content (null as ""). An absent or empty list changes nothing. The mode is kept. |
| Canvas.LoadedShowsLatest | src/components/custom/canvas.tsx:94-107 | After a load, the canvas is on the current version and the editor shows exactly the stored content of the selected index. |
| Canvas.EditorContent | src/components/custom/canvas.tsx:452 | At the current version the editor shows the live canvas text. Otherwise (only possible with a non-empty list) it shows the stored content of the selected version, so any index before the last one shows that stored row. |
| Canvas.HandleContentChange | src/components/custom/canvas.tsx:116-158 | The old list is always a prefix of the result. A save request, carrying the document id, canvas title and edit, is sent iff the latest row exists, has non-empty content and differs from the edit. Exactly one version is appended, with the same id/title/owner, the edited content and the new time, iff such a request was sent and did not fail. A failed request leaves the list as it was and the "saving" flag set. Otherwise the flag is cleared on append or when the latest row is not comparable. |
| Canvas.SaveIdempotent | src/components/custom/canvas.tsx:125-152 | Saving the same text twice appends at most one version, whether or not the second request fails. After a failed request the list is unchanged, so a retry appends exactly as a first save would. |
| Canvas.SaveContent | src/components/custom/canvas.tsx:162-175 | An edit is forwarded iff a row is loaded and the edit differs from its content. A forwarded edit has exactly the outcome of `handleContentChange`. Otherwise nothing changes. A save request is only ever sent for an edit that differs from the latest comparable version, and it carries the document id, the canvas title and the edit. |
| Canvas.UnchangedEditSavesNothing | src/components/custom/canvas.tsx:162-175 | After a load, re-submitting the text already shown appends nothing and sends nothing. |
| ChatRoute.FindModel | src/app/api/chat/route.ts:31-35 | The result is absent iff no configured model has the id. Otherwise it is the first model with that id. |
| ChatRoute.ConfigFor | src/app/api/chat/route.ts:57-62 | The canvas id `gpt-4o-canvas` gets the canvas prompt and the three document tools. Every other id gets the regular prompt and only the weather tool. The step budget is 5. |
| ChatRoute.PromptMatchesTools | src/app/api/chat/route.ts:59-62 | Document tools are offered exactly when the canvas prompt is used. |
| ChatRoute.HandlePost | src/app/api/chat/route.ts:22-62 | A body that is not JSON gives 500 before anything else. Then no user gives 401, an unknown model gives 404 and no user message gives 400, in that order, and only a request passing all of them writes anything. If no call throws, an admitted request makes exactly 3 effects for a new chat (save the chat, save the user message, start generation with the mode's configuration) and exactly 2 for an existing one. If the lookup, title or chat save throws, the answer is 500 alone. If the message save throws, the answer is 500 after at most the chat save. |
| ChatRoute.PersistenceFollowsGating | src/app/api/chat/route.ts:22-57 | Every write comes before generation starts. An error response is the last effect, and no generation accompanies it. A refused request has the error response as its only effect. Generation starts iff the request is admitted and none of its store or title calls throws. |
| ChatRoute.AssistantPositions | src/app/api/chat/route.ts:291-298 | The positions returned are exactly those of the assistant messages, in increasing order. |
| ChatRoute.OnFinish | src/app/api/chat/route.ts:285-315 | The channel is closed exactly once, as the last operation, whatever happens. A failed save leaves nothing stored and is not reported. On success, every response message is stored under its fresh id. There is one annotation per assistant message. |
| ChatRoute.AnnotationsMatchStoredAssistants | src/app/api/chat/route.ts:291-306 | The k-th annotation carries the id of the k-th stored assistant row. |
| ChatRoute.HandleDelete | src/app/api/chat/route.ts:327-356 | Missing id gives 404. No user gives 401. Owner mismatch gives 401. A store error or an absent chat gives 500. 200 happens exactly when the owner deletes an existing chat. On any non-200 result the store is unchanged. On 200 the chat and its messages are gone and everything else stays. |
| ChatRoute.OnlyOwnerDeletes | src/app/api/chat/route.ts:341-350 | The store changes only when the caller owned a chat with that id. |
| ChatTools.DeltaEventsCarryDraft | src/app/api/chat/route.ts:109-121 | The loop emits one text-delta event per text-delta part and nothing else. The text those events carry is the accumulated draft. |
| ChatTools.ConsumeStream | src/app/api/chat/route.ts:109-121 | The streaming loop computes exactly that fold: the events and the draft. |
| ChatTools.CreateDocument | src/app/api/chat/route.ts:84-139 | The events are `id`, `title`, `clear`, then exactly the delta events of the stream (one per text part, in order), then `finish`. An identified user gets one version saved whose content is the draft accumulated from the stream, which is also the text the deltas carry. Nobody else gets a row. The result is the creation confirmation. |
| ChatTools.UpdateDocument | src/app/api/chat/route.ts:147-215 | A missing document gives an error result, no events and no writes. Otherwise the events are `clear(title)`, exactly the delta events of the stream, then `finish`. For an identified user a version is saved under the same id and title whose content is the draft accumulated from the stream and equals the streamed text. |
| ChatTools.UpdateAppendsOneVersion | src/app/api/chat/route.ts:199-208 | After the saved update, the document has exactly one more version. Earlier versions are unchanged and other documents are untouched. |
| ChatTools.RequestSuggestions | src/app/api/chat/route.ts:222-282 | A missing document or empty content gives an error and no effects. Otherwise N elements give N `suggestion` events in order, the i-th carrying the i-th element's text under the i-th fresh id, unresolved, for the requested document. An identified user gets N rows with the same ids and text, owned by that user, stamped with the time, and anchored to the version's `createdAt`. Nobody else gets rows. |
| ChatTools.PersistRoundTrip | src/app/api/chat/route.ts:231-273 | The saved row adds only `userId`, `createdAt` and `documentCreatedAt` to the streamed suggestion: dropping them gives the suggestion back. |
| ChatTools.SavedSuggestionsMatchStream | src/app/api/chat/route.ts:246-275 | The i-th saved row is the i-th streamed suggestion with the owner, the time and the version anchor added. Without those fields it is exactly what was streamed. |
| FileUpload.ValidationErrors | src/app/api/files/process/route.ts:9-26 | The entry is valid iff it is a file of at most 5·1024·1024 bytes whose type is PDF, DOC or DOCX. For a file there is exactly one message per failed check and no other. The size message appears iff the file is too large, the type message iff the type is not listed, size first. A non-file yields only the type-test message. |
| FileUpload.BothProblemsReported | src/app/api/files/process/route.ts:110-115 | An oversized file of a wrong type is answered with both messages joined by ", ". |
| FileUpload.TitleOf | src/app/api/files/process/route.ts:119 | A name without a dot has the empty title. For a name with a dot, title + "." + last segment is the name. |
| FileUpload.TitleEndsAtLastDot | src/app/api/files/process/route.ts:119 | The title is the name up to its last dot: a dot follows it and no dot comes after that. |
| FileUpload.TitleDropsOnlyExtension | src/app/api/files/process/route.ts:119 | For a name with two dots, the title keeps everything before the second dot, the first dot included. Only the extension is dropped. |
| FileUpload.TitleExample | src/app/api/files/process/route.ts:119 | `"a.b.docx"` has title `"a.b"`. |
| FileUpload.ProcessUpload | src/app/api/files/process/route.ts:91-155 | The checks run in order: 401 without user, 400 without body, 500 if the form cannot be read, 400 with no file, 400 with the joined messages for an invalid file. A PDF is never accepted. 200 happens iff a row was saved. That row is the converted Word file under the fresh id, with the derived title, and the response returns the same id. For a valid DOC or DOCX file, the answer is 200 iff the conversion and the save both succeed, and otherwise 500 "Upload failed" with nothing saved. "Unsupported file type" is never answered. |
| FileUpload.PdfNotImplemented | src/app/api/files/process/route.ts:126-130 | A valid PDF passes validation and is always answered 500 "PDF not implemented". |
| DocumentRoute.HandleGet | src/app/api/document/route.ts:3-30 | Missing id gives 400, decided before auth. No user gives 401. A throwing query gives 500. No versions gives 404. A caller who does not own the first version gives 401. Otherwise 200 with all versions. |
| DocumentRoute.OwnedPostServedToOwnerOnly | src/app/api/document/route.ts:17-29 | After a successful corrected `POST`, the caller's `GET` succeeds and its latest version is the one just appended. Every other user's `GET` gives 401. |
| DocumentRoute.HandlePost | src/app/api/document/route.ts:32-60 | Missing id gives 400 and no user gives 401. A body that is not JSON gives 500. A user with an empty id gives 401. A throwing save gives 500. Otherwise exactly one version is appended with the given content and title, owned by the caller. Nothing changes unless it succeeds. |
| DocumentRoute.ForeignAppendAccepted | src/app/api/document/route.ts:46-56 | As written, any identified user other than the owner can append to a one-version document. The document then has two authors, and the owner's `GET` serves the intruder's version last. |
| DocumentRoute.ForeignAppendExample | src/app/api/document/route.ts:46-56 | The concrete run: Alice's `doc`, Mallory's `POST`, and Alice's `GET` returning Mallory's text as the latest version. |
| DocumentRoute.HandlePostOwned | src/app/api/document/route.ts:32-60 | Corrected POST, with the same order of checks as the as-written one: a missing id gives 400, no user 401, a non-JSON body 500, an empty user id 401. Then a throwing read gives 500. Appending to an existing document succeeds only for the owner of its first version, and anyone else gets 401. A throwing save gives 500. Nothing is written unless the answer is 200. |
| DocumentRoute.PostOwnedKeepsSingleOwner | src/app/api/document/route.ts:32-60 | With the check, all versions keep one owner and the first version stays in place. |
| DocumentRoute.HandlePatch | src/app/api/document/route.ts:62-92 | The body is parsed first (500 if it is not JSON). Then: missing id gives 400, no user gives 401, a throwing query gives 500, an empty history gives 500, and a caller who is not the owner of the first row gives 401 with nothing deleted. A throwing delete gives 500. 200 happens iff the owner rolls back, and the log becomes the log minus that document's versions after the timestamp. |
| DocumentRoute.DeleteAfter | src/app/api/document/route.ts:86-89 | A row remains iff it was there and is not a version of the id created after the timestamp. |
| DocumentRoute.DeleteAfterVersions | src/app/api/document/route.ts:86-89 | The document keeps exactly its versions up to the timestamp, in order. |
| DocumentRoute.DeleteAfterKeepsOthers | src/app/api/document/route.ts:86-89 | Every other document keeps all its versions. |
| DocumentRoute.RollbackKeepsPrefix | src/app/api/document/route.ts:86-89 | On a chronological history, what remains is a prefix, and every dropped version is after the timestamp. |
| DocumentRoute.PatchKeepsOwnership | src/app/api/document/route.ts:78-91 | An owner's rollback that keeps the first version leaves the document owned by the same user. |
| AuthMiddleware.UpdateSession | src/lib/supabase/middleware.ts:35-43 | Redirect to `/login` iff signed out and the path contains neither "login" nor "signup". Redirect to `/` iff signed in and it contains one. Pass through otherwise. |
| AuthMiddleware.NoRedirectLoop | src/lib/supabase/middleware.ts:35-43 | Evaluating a redirect target with the same sign-in state passes through. |
| AuthMiddleware.MatchesBySubstring | src/lib/supabase/middleware.ts:35-41 | Any path merely containing "login" counts as an auth page for both rules. |
| Text.IncludesIffOccurrence | src/lib/supabase/middleware.ts:35 | `includes` holds iff the substring starts at some offset. |
| Text.JoinSplit | src/app/api/files/process/route.ts:119 | Joining the pieces of a split with the same separator gives the string back. |
| Text.SplitAround | src/app/api/files/process/route.ts:119 | Splitting a separator-free head, a separator and a tail gives the head as the first piece and the tail's pieces after it. |

## Left out

- The getWeather tool is left out. It forwards an external weather API's JSON unchanged and persists nothing.
- Language-model calls are left out: text streaming, structured-element streaming, title generation and the predicted-output hint. Their outputs are inputs here.
- `getMostRecentUserMessage` and `sanitizeResponseMessages` are in `lib/utils`, which is not part of this model. Their results are inputs.
- Message content is abstracted as a string.
- The store queries are modelled, not their implementation. `getDocumentsById` is taken to return the id's rows in insertion order. `getDocumentById` is the current version passed in. `deleteDocumentsByIdAfterTimestamp` is taken to delete rows strictly after the timestamp. `getChatById` on an unknown id is taken to return nothing.
- Every row one call writes gets the same `now`. This applies to the messages saved by `onFinish` and to the suggestions saved by `requestSuggestions`. The source evaluates `new Date()` once per row, so its timestamps may differ by milliseconds.
- `getUser` throwing is not modelled. Every handler calls it outside its `try`, so such an error escapes to the framework. Its result is an input.
- Chat deletion and its message cascade are treated as one atomic step. So are a document save and the delete after a timestamp: a store call that throws is taken to have written nothing.
- The text-generation call of chat `POST` (`streamText`) and everything after it are not given a failure input. Whatever that call raises is the language-model SDK's behaviour.
- DocumentRoute.HandlePatch: the timestamp is an integer or absent (body not JSON). The source converts the body's `timestamp` string with `new Date(timestamp)` (line 88). A missing or unparsable timestamp passes every check and reaches the delete as an Invalid Date. What the delete query does with it depends on the query layer, which is not part of this model, so that case has no outcome here.
- DOCX→Markdown conversion (mammoth/turndown) is an input. A failure while reading the file's bytes also ends in the outer 500, and that case is not modelled separately.
- The upload route under `src/app/(chat)/api/files/process/` is an alternative version of the same endpoint and is not modelled.
- The transport layer is left out: how the data stream is multiplexed, request cancellation, and the 60-second maximum duration.
- React presentation is left out: SWR fetching and revalidation, the 2-second debounce of saves, layout and animation. The `!canvas` guard is always false, because the canvas is always an object.
- JavaScript indexing with a non-integer index is not modelled. The version index is an integer.
- Response bodies are modelled for the upload route only. The JSON returned by the document `GET` is the version list. The saved row echoed by `POST` is not modelled.
- The auth server actions, the Supabase cookie plumbing, the history route and configuration files are left out.

## Findings

| source | as written | input that shows it | evidently intended | confidence | as-written member | corrected member |
|---|---|---|---|---|---|---|
| src/app/api/document/route.ts:46-56 | `POST` appends a version for any signed-in caller without comparing the caller with the owner of the first stored version. `GET` (line 25) and `PATCH` (line 82) both make that comparison. | Alice stores version 1 of `doc`. Mallory POSTs to `?id=doc`. The result is 200, and Alice's `GET` now returns Mallory's text as the latest version. | Refuse with 401 unless the document is new or the caller owns its first version, so that each document keeps a single owner. | medium; not executed | DocumentRoute.ForeignAppendAccepted | DocumentRoute.PostOwnedKeepsSingleOwner |
