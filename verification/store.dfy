/**
 * The rows the handlers read and write. The relational store itself is not
 * modelled: a table is a sequence of rows in insertion order, and a query is
 * a function over that sequence.
 */
module Store {
  import opened Options

  /** The authenticated caller, as returned by the auth service. */
  datatype User = User(id: string)

  /** The guard `user && user.id`: a user is present and has a non-empty id. */
  predicate Identified(user: Option<User>) {
    user.Some? && user.value.id != ""
  }

  /** One version of a document; `createdAt` (a timestamp) is the version key. */
  datatype DocumentRow = DocumentRow(
    id: string,
    title: string,
    content: Option<string>,
    userId: string,
    createdAt: int)

  /** All document versions ever stored, in insertion order. */
  type VersionLog = seq<DocumentRow>

  /** The versions of document `id`, oldest first (the `getDocumentsById` query). */
  function VersionsOf(log: VersionLog, id: string): (versions: seq<DocumentRow>)
    ensures |versions| <= |log|
    ensures forall i :: 0 <= i < |versions| ==> versions[i].id == id && versions[i] in log
  {
    if |log| == 0 then []
    else
      var last := log[|log| - 1];
      VersionsOf(log[..|log| - 1], id) + (if last.id == id then [last] else [])
  }

  /** Appending a row adds one version to its own document and none to any other. */
  lemma VersionsOfAppend(log: VersionLog, row: DocumentRow, id: string)
    ensures VersionsOf(log + [row], id)
            == VersionsOf(log, id) + (if row.id == id then [row] else [])
  {
    assert (log + [row])[..|log|] == log;
  }

  /** A chat thread, owned by the user who started it. */
  datatype Chat = Chat(id: string, userId: string, title: string)

  datatype Role = UserRole | AssistantRole | ToolRole

  /** One stored turn of a chat. */
  datatype MessageRow = MessageRow(id: string, chatId: string, role: Role, content: string, createdAt: int)

  /** A proposed edit, anchored to the document version it was made against. */
  datatype SuggestionRow = SuggestionRow(
    id: string,
    documentId: string,
    originalText: string,
    suggestedText: string,
    description: string,
    isResolved: bool,
    userId: string,
    createdAt: int,
    documentCreatedAt: int)
}
