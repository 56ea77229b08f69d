/**
 * The execute bodies of the document tools the chat model can call. Each
 * one reads a nested generation stream, emits events on the out-of-band
 * data channel, and produces rows to persist. The streams are given as
 * inputs; fresh ids and timestamps are parameters.
 */
module ChatTools {
  import opened Options
  import opened Store

  /** A part of a nested generation stream; only text deltas are used, every other kind is skipped. */
  datatype StreamPart = TextDeltaPart(textDelta: string) | OtherPart

  /** One structured element of the suggestion stream. */
  datatype SuggestionElement = SuggestionElement(originalSentence: string, suggestedSentence: string, description: string)

  /** The suggestion as streamed to the client, before the persistence-only fields are added. */
  datatype SuggestionRecord = SuggestionRecord(
    id: string,
    documentId: string,
    originalText: string,
    suggestedText: string,
    description: string,
    isResolved: bool)

  /** An event on the out-of-band data channel. */
  datatype DataEvent =
    | IdEvent(id: string)
    | TitleEvent(title: string)
    | ClearEvent(content: string)
    | TextDeltaEvent(delta: string)
    | FinishEvent
    | SuggestionEvent(suggestion: SuggestionRecord)

  /** What a tool returns to the model for its next step. */
  datatype ToolResult =
    | DocumentCreated(id: string, title: string, content: string)
    | DocumentUpdated(id: string, title: string, content: string)
    | SuggestionsAdded(id: string, title: string, message: string)
    | ToolError(error: string)

  /** Everything one tool execution does: events in emission order, and the rows it saves. */
  datatype ToolRun = ToolRun(
    events: seq<DataEvent>,
    documents: seq<DocumentRow>,
    suggestions: seq<SuggestionRow>,
    result: ToolResult)

  const CreatedMessage := "A document was created and is now visible to the user."
  const UpdatedMessage := "The document has been updated successfully."
  const SuggestionsMessage := "Suggestions have been added to the document"
  const DocumentNotFound := "Document not found"

  /** The data-channel events the `for await` loop emits: one per text-delta part, in order. */
  function DeltaEvents(parts: seq<StreamPart>): seq<DataEvent>
    decreases |parts|
  {
    if |parts| == 0 then []
    else
      var last := parts[|parts| - 1];
      DeltaEvents(parts[..|parts| - 1]) + (if last.TextDeltaPart? then [TextDeltaEvent(last.textDelta)] else [])
  }

  /** The draft the loop accumulates with `draftText += textDelta`. */
  function Draft(parts: seq<StreamPart>): string
    decreases |parts|
  {
    if |parts| == 0 then ""
    else
      var last := parts[|parts| - 1];
      Draft(parts[..|parts| - 1]) + (if last.TextDeltaPart? then last.textDelta else "")
  }

  /** The number of text-delta parts in a stream. */
  function CountDeltas(parts: seq<StreamPart>): nat
    decreases |parts|
  {
    if |parts| == 0 then 0
    else CountDeltas(parts[..|parts| - 1]) + (if parts[|parts| - 1].TextDeltaPart? then 1 else 0)
  }

  /** The text a client rebuilds from a data channel: the concatenated text-delta payloads. */
  function StreamedText(events: seq<DataEvent>): string
    decreases |events|
  {
    if |events| == 0 then ""
    else
      var last := events[|events| - 1];
      StreamedText(events[..|events| - 1]) + (if last.TextDeltaEvent? then last.delta else "")
  }

  /** Every event of the run is a text delta. */
  predicate AllDeltas(events: seq<DataEvent>) {
    forall i :: 0 <= i < |events| ==> events[i].TextDeltaEvent?
  }

  lemma {:induction false} StreamedTextAppend(a: seq<DataEvent>, b: seq<DataEvent>)
    ensures StreamedText(a + b) == StreamedText(a) + StreamedText(b)
    decreases |b|
  {
    if |b| == 0 {
      assert a + b == a;
    } else {
      var init, last := b[..|b| - 1], b[|b| - 1];
      var text := if last.TextDeltaEvent? then last.delta else "";
      StreamedTextAppend(a, init);
      var ab := a + b;
      assert ab[..|ab| - 1] == a + init;
      assert ab[|ab| - 1] == last;
      assert StreamedText(ab) == StreamedText(a) + StreamedText(init) + text;
      assert StreamedText(b) == StreamedText(init) + text;
      assert StreamedText(a) + StreamedText(init) + text == StreamedText(a) + (StreamedText(init) + text);
    }
  }

  /** Events other than text deltas contribute no text. */
  lemma {:induction false} NoDeltasNoText(events: seq<DataEvent>)
    requires forall i :: 0 <= i < |events| ==> !events[i].TextDeltaEvent?
    ensures StreamedText(events) == ""
    decreases |events|
  {
    if |events| > 0 {
      NoDeltasNoText(events[..|events| - 1]);
    }
  }

  /**
   * The loop's events and draft agree: there is one event per text delta,
   * nothing else, and the client's rebuilt text is the draft that is saved.
   */
  lemma {:induction false} DeltaEventsCarryDraft(parts: seq<StreamPart>)
    ensures AllDeltas(DeltaEvents(parts))
    ensures |DeltaEvents(parts)| == CountDeltas(parts)
    ensures StreamedText(DeltaEvents(parts)) == Draft(parts)
    decreases |parts|
  {
    if |parts| > 0 {
      var init := parts[..|parts| - 1];
      var last := parts[|parts| - 1];
      DeltaEventsCarryDraft(init);
      var tail := if last.TextDeltaPart? then [TextDeltaEvent(last.textDelta)] else [];
      StreamedTextAppend(DeltaEvents(init), tail);
      assert StreamedText(tail) == (if last.TextDeltaPart? then last.textDelta else "") by {
        if last.TextDeltaPart? {
          assert tail[..0] == [];
        }
      }
    }
  }

  /** Framing a delta run with non-text events leaves the client's rebuilt text equal to the draft. */
  lemma {:induction false} FramedDraft(prefix: seq<DataEvent>, parts: seq<StreamPart>)
    requires forall i :: 0 <= i < |prefix| ==> !prefix[i].TextDeltaEvent?
    ensures StreamedText(prefix + DeltaEvents(parts) + [FinishEvent]) == Draft(parts)
  {
    DeltaEventsCarryDraft(parts);
    StreamedTextAppend(prefix + DeltaEvents(parts), [FinishEvent]);
    StreamedTextAppend(prefix, DeltaEvents(parts));
    NoDeltasNoText(prefix);
    NoDeltasNoText([FinishEvent]);
  }

  /** The `for await (const delta of fullStream)` loop shared by both document tools. */
  method ConsumeStream(parts: seq<StreamPart>) returns (events: seq<DataEvent>, draft: string)
    ensures events == DeltaEvents(parts)
    ensures draft == Draft(parts)
  {
    events := [];
    draft := "";
    var i := 0;
    while i < |parts|
      invariant 0 <= i <= |parts|
      invariant events == DeltaEvents(parts[..i])
      invariant draft == Draft(parts[..i])
    {
      assert parts[..i + 1][..i] == parts[..i];
      var part := parts[i];
      if part.TextDeltaPart? {
        draft := draft + part.textDelta;
        events := events + [TextDeltaEvent(part.textDelta)];
      }
      i := i + 1;
    }
    assert parts[..i] == parts;
  }

  /**
   * `createDocument`: announce the new id, the title and a cleared canvas,
   * stream the draft, finish, then save the draft as the first version.
   */
  function CreateDocument(title: string, id: string, parts: seq<StreamPart>, user: Option<User>, now: int): (r: ToolRun)
    ensures |r.events| == 4 + CountDeltas(parts)
    ensures r.events[..3] == [IdEvent(id), TitleEvent(title), ClearEvent("")]
    ensures r.events[3..|r.events| - 1] == DeltaEvents(parts)
    ensures AllDeltas(r.events[3..|r.events| - 1])
    ensures r.events[|r.events| - 1] == FinishEvent
    ensures Identified(user) ==>
              r.documents == [DocumentRow(id, title, Some(Draft(parts)), user.value.id, now)]
    ensures Identified(user) ==> r.documents[0].content == Some(StreamedText(r.events))
    ensures !Identified(user) ==> r.documents == []
    ensures r.suggestions == []
    ensures r.result == DocumentCreated(id, title, CreatedMessage)
  {
    var deltas := DeltaEvents(parts);
    var events := [IdEvent(id), TitleEvent(title), ClearEvent("")] + deltas + [FinishEvent];
    DeltaEventsCarryDraft(parts);
    FramedDraft([IdEvent(id), TitleEvent(title), ClearEvent("")], parts);
    assert events[3..|events| - 1] == deltas;
    ToolRun(
      events,
      if Identified(user) then [DocumentRow(id, title, Some(Draft(parts)), user.value.id, now)] else [],
      [],
      DocumentCreated(id, title, CreatedMessage))
  }

  /**
   * `updateDocument`: for a missing document, an error result and nothing
   * else; otherwise clear the canvas (carrying the unchanged title), stream
   * the new draft, finish, and save it as a new version of the same id.
   */
  function UpdateDocument(id: string, current: Option<DocumentRow>, parts: seq<StreamPart>,
                          user: Option<User>, now: int): (r: ToolRun)
    ensures current.None? ==> r == ToolRun([], [], [], ToolError(DocumentNotFound))
    ensures current.Some? ==>
              && |r.events| == 2 + CountDeltas(parts)
              && r.events[0] == ClearEvent(current.value.title)
              && r.events[1..|r.events| - 1] == DeltaEvents(parts)
              && AllDeltas(r.events[1..|r.events| - 1])
              && r.events[|r.events| - 1] == FinishEvent
              && r.suggestions == []
              && r.result == DocumentUpdated(id, current.value.title, UpdatedMessage)
    ensures current.Some? && Identified(user) ==>
              && r.documents == [DocumentRow(id, current.value.title, Some(Draft(parts)), user.value.id, now)]
              && r.documents[0].content == Some(StreamedText(r.events))
    ensures !Identified(user) ==> r.documents == []
  {
    match current
    case None => ToolRun([], [], [], ToolError(DocumentNotFound))
    case Some(document) =>
      var deltas := DeltaEvents(parts);
      var events := [ClearEvent(document.title)] + deltas + [FinishEvent];
      DeltaEventsCarryDraft(parts);
      FramedDraft([ClearEvent(document.title)], parts);
      assert events[1..|events| - 1] == deltas;
      ToolRun(
        events,
        if Identified(user) then [DocumentRow(id, document.title, Some(Draft(parts)), user.value.id, now)] else [],
        [],
        DocumentUpdated(id, document.title, UpdatedMessage))
  }

  /**
   * Saving an update appends exactly one version to that document, keeps
   * every earlier version as it was, and leaves other documents alone.
   */
  lemma UpdateAppendsOneVersion(log: VersionLog, id: string, current: DocumentRow, parts: seq<StreamPart>,
                                user: Option<User>, now: int, other: string)
    requires Identified(user)
    requires other != id
    ensures var r := UpdateDocument(id, Some(current), parts, user, now);
            && |VersionsOf(log + r.documents, id)| == |VersionsOf(log, id)| + 1
            && VersionsOf(log + r.documents, id)[..|VersionsOf(log, id)|] == VersionsOf(log, id)
            && VersionsOf(log + r.documents, id)[|VersionsOf(log, id)|].title == current.title
            && VersionsOf(log + r.documents, other) == VersionsOf(log, other)
  {
    var r := UpdateDocument(id, Some(current), parts, user, now);
    VersionsOfAppend(log, r.documents[0], id);
    VersionsOfAppend(log, r.documents[0], other);
  }

  /** The document has no content to comment on: missing, or content null or empty. */
  predicate NothingToSuggestOn(current: Option<DocumentRow>) {
    current.None? || current.value.content.None? || current.value.content.value == ""
  }

  /** The suggestion streamed for an element: the element's text under a fresh id, unresolved. */
  function Record(documentId: string, element: SuggestionElement, id: string): SuggestionRecord {
    SuggestionRecord(id, documentId, element.originalSentence, element.suggestedSentence, element.description, false)
  }

  /** The row saved for a streamed suggestion: the record plus the owner, the time and the anchored version. */
  function Persist(record: SuggestionRecord, userId: string, now: int, documentCreatedAt: int): SuggestionRow {
    SuggestionRow(record.id, record.documentId, record.originalText, record.suggestedText, record.description,
                  record.isResolved, userId, now, documentCreatedAt)
  }

  /** The streamed shape of a row: the row without `userId`, `createdAt` and `documentCreatedAt`. */
  function Unpersist(row: SuggestionRow): SuggestionRecord {
    SuggestionRecord(row.id, row.documentId, row.originalText, row.suggestedText, row.description, row.isResolved)
  }

  /** Adding the persistence-only fields loses nothing of the streamed suggestion. */
  lemma PersistRoundTrip(record: SuggestionRecord, userId: string, now: int, documentCreatedAt: int)
    ensures Unpersist(Persist(record, userId, now, documentCreatedAt)) == record
    ensures Persist(record, userId, now, documentCreatedAt).userId == userId
    ensures Persist(record, userId, now, documentCreatedAt).documentCreatedAt == documentCreatedAt
  {
  }

  /** The records streamed for the elements, in order, the i-th under `freshId(i)`. */
  function Records(documentId: string, elements: seq<SuggestionElement>, freshId: nat -> string): (records: seq<SuggestionRecord>)
    ensures |records| == |elements|
    ensures forall i :: 0 <= i < |elements| ==> records[i] == Record(documentId, elements[i], freshId(i))
  {
    seq(|elements|, i requires 0 <= i < |elements| => Record(documentId, elements[i], freshId(i)))
  }

  /** One `suggestion` event per record, in order. */
  function SuggestionEvents(records: seq<SuggestionRecord>): (events: seq<DataEvent>)
    ensures |events| == |records|
    ensures forall i :: 0 <= i < |records| ==> events[i] == SuggestionEvent(records[i])
  {
    seq(|records|, i requires 0 <= i < |records| => SuggestionEvent(records[i]))
  }

  /** The rows `saveSuggestions` receives: every record with the persistence-only fields added. */
  function PersistAll(records: seq<SuggestionRecord>, userId: string, now: int, documentCreatedAt: int): (rows: seq<SuggestionRow>)
    ensures |rows| == |records|
    ensures forall i :: 0 <= i < |records| ==> rows[i] == Persist(records[i], userId, now, documentCreatedAt)
  {
    seq(|records|, i requires 0 <= i < |records| => Persist(records[i], userId, now, documentCreatedAt))
  }

  /**
   * `requestSuggestions`: an error for a document with nothing to comment
   * on; otherwise one `suggestion` event per element in stream order, and
   * (for an identified user) one unresolved row per element anchored to the
   * version that was read.
   */
  function RequestSuggestions(documentId: string, current: Option<DocumentRow>, elements: seq<SuggestionElement>,
                              freshId: nat -> string, user: Option<User>, now: int): (r: ToolRun)
    ensures NothingToSuggestOn(current) ==> r == ToolRun([], [], [], ToolError(DocumentNotFound))
    ensures !NothingToSuggestOn(current) ==>
              && |r.events| == |elements|
              && r.documents == []
              && r.result == SuggestionsAdded(documentId, current.value.title, SuggestionsMessage)
              && (Identified(user) ==> |r.suggestions| == |elements|)
              && (!Identified(user) ==> r.suggestions == [])
    ensures !NothingToSuggestOn(current) ==>
              forall i :: 0 <= i < |r.events| ==>
                && r.events[i].SuggestionEvent?
                && r.events[i].suggestion.id == freshId(i)
                && r.events[i].suggestion.documentId == documentId
                && r.events[i].suggestion.originalText == elements[i].originalSentence
                && r.events[i].suggestion.suggestedText == elements[i].suggestedSentence
                && r.events[i].suggestion.description == elements[i].description
                && !r.events[i].suggestion.isResolved
    ensures !NothingToSuggestOn(current) && Identified(user) ==>
              forall i :: 0 <= i < |r.suggestions| ==>
                && r.suggestions[i].id == freshId(i)
                && r.suggestions[i].documentId == documentId
                && r.suggestions[i].originalText == elements[i].originalSentence
                && r.suggestions[i].suggestedText == elements[i].suggestedSentence
                && r.suggestions[i].description == elements[i].description
                && !r.suggestions[i].isResolved
                && r.suggestions[i].userId == user.value.id
                && r.suggestions[i].createdAt == now
                && r.suggestions[i].documentCreatedAt == current.value.createdAt
  {
    if NothingToSuggestOn(current) then ToolRun([], [], [], ToolError(DocumentNotFound))
    else
      var document := current.value;
      var records := Records(documentId, elements, freshId);
      var rows := if Identified(user) then PersistAll(records, user.value.id, now, document.createdAt) else [];
      ToolRun(SuggestionEvents(records), [], rows, SuggestionsAdded(documentId, document.title, SuggestionsMessage))
  }

  /**
   * What is saved is what was streamed: the i-th row is the i-th streamed
   * suggestion with the owner, the time and the version anchor added, and
   * dropping those fields gives the streamed suggestion back.
   */
  lemma SavedSuggestionsMatchStream(documentId: string, current: Option<DocumentRow>,
                                    elements: seq<SuggestionElement>, freshId: nat -> string,
                                    user: Option<User>, now: int, i: nat)
    requires !NothingToSuggestOn(current) && Identified(user)
    requires i < |elements|
    ensures var r := RequestSuggestions(documentId, current, elements, freshId, user, now);
            && r.suggestions[i] == Persist(r.events[i].suggestion, user.value.id, now, current.value.createdAt)
            && Unpersist(r.suggestions[i]) == r.events[i].suggestion
  {
    var r := RequestSuggestions(documentId, current, elements, freshId, user, now);
    PersistRoundTrip(r.events[i].suggestion, user.value.id, now, current.value.createdAt);
  }
}
