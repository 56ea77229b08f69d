/**
 * The document canvas: which stored version the user is looking at, in
 * which view, and the client-side rule that turns an edit into a new
 * version. `documents` is the version list fetched for the open document;
 * it is `None` while it has not been loaded.
 */
module Canvas {
  import opened Options
  import opened Store

  datatype Mode = Edit | Diff

  datatype VersionAction = Prev | Next | Toggle | Latest

  /** The viewer state: the selected version (`-1` before any list is loaded) and the view mode. */
  datatype Navigator = Navigator(index: int, mode: Mode)

  const InitialNavigator := Navigator(-1, Edit)

  /** `handleVersionChange`: the four buttons of the version toolbar. */
  function HandleVersionChange(documents: Option<seq<DocumentRow>>, nav: Navigator, action: VersionAction): (r: Navigator)
    ensures documents.None? ==> r == nav
    ensures documents.Some? && action == Latest ==> r == Navigator(|documents.value| - 1, Edit)
    ensures action == Toggle ==> r.index == nav.index
    ensures documents.Some? && action == Toggle ==> r.mode != nav.mode
    ensures action == Prev || action == Next ==> r.mode == nav.mode
    ensures action == Prev ==> r.index == nav.index || (r.index == nav.index - 1 && r.index >= 0)
    ensures action == Next && documents.Some? ==>
              r.index == nav.index || (r.index == nav.index + 1 && r.index <= |documents.value| - 1)
    ensures action == Next ==> r.index >= nav.index
    ensures documents.Some? && action == Prev ==> (r.index < nav.index <==> nav.index > 0)
    ensures documents.Some? && action == Next ==> (r.index > nav.index <==> nav.index < |documents.value| - 1)
  {
    match documents
    case None => nav
    case Some(docs) =>
      match action
      case Latest => Navigator(|docs| - 1, Edit)
      case Toggle => nav.(mode := if nav.mode == Edit then Diff else Edit)
      case Prev => if nav.index > 0 then nav.(index := nav.index - 1) else nav
      case Next => if nav.index < |docs| - 1 then nav.(index := nav.index + 1) else nav
  }

  /** A run of button presses against one loaded list. */
  function Navigate(documents: Option<seq<DocumentRow>>, nav: Navigator, actions: seq<VersionAction>): Navigator
    decreases |actions|
  {
    if |actions| == 0 then nav
    else Navigate(documents, HandleVersionChange(documents, nav, actions[0]), actions[1..])
  }

  /** The selected index is `-1` or names a version of a list of `count` versions. */
  predicate IndexInRange(nav: Navigator, count: nat) {
    -1 <= nav.index <= count - 1
  }

  /** No sequence of button presses moves the selection off the version list. */
  lemma {:induction false} NavigateStaysInRange(docs: seq<DocumentRow>, nav: Navigator, actions: seq<VersionAction>)
    requires IndexInRange(nav, |docs|)
    ensures IndexInRange(Navigate(Some(docs), nav, actions), |docs|)
    ensures nav.index >= 0 ==> Navigate(Some(docs), nav, actions).index >= 0
    decreases |actions|
  {
    if |actions| > 0 {
      var next := HandleVersionChange(Some(docs), nav, actions[0]);
      assert IndexInRange(next, |docs|);
      NavigateStaysInRange(docs, next, actions[1..]);
    }
  }

  /**
   * A freshly opened canvas starts at `-1` in edit mode; whatever buttons are
   * pressed once the list has loaded, the selection stays on the list or at `-1`.
   */
  lemma InitialNavigatorStaysInRange(docs: seq<DocumentRow>, actions: seq<VersionAction>)
    ensures IndexInRange(Navigate(Some(docs), InitialNavigator, actions), |docs|)
  {
    NavigateStaysInRange(docs, InitialNavigator, actions);
  }

  /** Stepping back then forward returns to the same version, and the other way round. */
  lemma PrevNextInverse(docs: seq<DocumentRow>, nav: Navigator)
    requires 0 <= nav.index <= |docs| - 1
    ensures nav.index > 0 ==>
              HandleVersionChange(Some(docs), HandleVersionChange(Some(docs), nav, Prev), Next) == nav
    ensures nav.index < |docs| - 1 ==>
              HandleVersionChange(Some(docs), HandleVersionChange(Some(docs), nav, Next), Prev) == nav
  {
  }

  /** Toggling twice restores the view. */
  lemma ToggleInvolution(documents: Option<seq<DocumentRow>>, nav: Navigator)
    ensures HandleVersionChange(documents, HandleVersionChange(documents, nav, Toggle), Toggle) == nav
  {
  }

  /** `isCurrentVersion`: with no versions (or none loaded yet) the canvas counts as current. */
  function IsCurrentVersion(documents: Option<seq<DocumentRow>>, index: int): (current: bool)
    ensures documents.None? || |documents.value| == 0 ==> current
    ensures documents.Some? && |documents.value| > 0 ==> (current <==> index == |documents.value| - 1)
  {
    if documents.Some? && |documents.value| > 0 then index == |documents.value| - 1 else true
  }

  /** `Latest` always lands on the current version, and at the current version `Next` does nothing. */
  lemma LatestIsCurrent(documents: Option<seq<DocumentRow>>, nav: Navigator)
    requires documents.Some?
    ensures IsCurrentVersion(documents, HandleVersionChange(documents, nav, Latest).index)
    ensures IsCurrentVersion(documents, nav.index) && |documents.value| > 0 ==>
              HandleVersionChange(documents, nav, Next) == nav
  {
  }

  /** `getDocumentContentById`: the content of version `index`, or "" when there is none. */
  function ContentAt(documents: Option<seq<DocumentRow>>, index: int): (content: string)
    ensures documents.None? || index < 0 || index >= |documents.value| ==> content == ""
    ensures documents.Some? && 0 <= index < |documents.value| && documents.value[index].content.Some? ==>
              content == documents.value[index].content.value
    ensures documents.Some? && 0 <= index < |documents.value| && documents.value[index].content.None? ==>
              content == ""
  {
    if documents.None? then ""
    else if !(0 <= index < |documents.value|) then ""
    else documents.value[index].content.GetOr("")
  }

  /** The two panes of the diff view: the version before the selected one, and the selected one. */
  function DiffPanes(documents: Option<seq<DocumentRow>>, index: int): (panes: (string, string))
    ensures documents.Some? && 1 <= index < |documents.value| ==>
              panes == (documents.value[index - 1].content.GetOr(""), documents.value[index].content.GetOr(""))
    ensures index == 0 ==> panes.0 == ""
    ensures documents.None? ==> panes == ("", "")
  {
    (ContentAt(documents, index - 1), ContentAt(documents, index))
  }

  /** Diffing the first version compares it with the empty text. */
  lemma FirstVersionDiffsAgainstEmpty(docs: seq<DocumentRow>)
    requires |docs| > 0
    ensures DiffPanes(Some(docs), 0).0 == ""
    ensures DiffPanes(Some(docs), 0).1 == docs[0].content.GetOr("")
  {
  }

  /** What the canvas holds besides the navigator: the latest loaded row and the editor text. */
  datatype CanvasState = CanvasState(document: Option<DocumentRow>, nav: Navigator, content: string)

  /** The effect run when the version list arrives: jump to the newest version and show its text. */
  function OnDocumentsLoaded(documents: Option<seq<DocumentRow>>, state: CanvasState): (r: CanvasState)
    ensures documents.None? || |documents.value| == 0 ==> r == state
    ensures documents.Some? && |documents.value| > 0 ==>
              && r.document == Some(documents.value[|documents.value| - 1])
              && r.nav.index == |documents.value| - 1
              && r.content == documents.value[|documents.value| - 1].content.GetOr("")
    ensures r.nav.mode == state.nav.mode
  {
    if documents.Some? && |documents.value| > 0 then
      var latest := documents.value[|documents.value| - 1];
      CanvasState(Some(latest), state.nav.(index := |documents.value| - 1), latest.content.GetOr(""))
    else state
  }

  /** The text in the editor: the live canvas text at the current version, else the stored one. */
  function EditorContent(documents: Option<seq<DocumentRow>>, state: CanvasState): (shown: string)
    ensures IsCurrentVersion(documents, state.nav.index) ==> shown == state.content
    ensures !IsCurrentVersion(documents, state.nav.index) ==>
              && documents.Some? && |documents.value| > 0
              && shown == ContentAt(documents, state.nav.index)
    ensures documents.Some? && 0 <= state.nav.index < |documents.value| - 1 ==>
              shown == documents.value[state.nav.index].content.GetOr("")
  {
    if IsCurrentVersion(documents, state.nav.index) then state.content
    else ContentAt(documents, state.nav.index)
  }

  /**
   * After loading, the canvas is on the current version, and the live text
   * it shows is exactly what the version list stores for that index.
   */
  lemma LoadedShowsLatest(docs: seq<DocumentRow>, state: CanvasState)
    requires |docs| > 0
    ensures var r := OnDocumentsLoaded(Some(docs), state);
            IsCurrentVersion(Some(docs), r.nav.index)
            && EditorContent(Some(docs), r) == ContentAt(Some(docs), r.nav.index)
  {
  }

  /** The request the canvas sends to append a version (`POST /api/document`). */
  datatype SaveRequest = SaveRequest(documentId: string, title: string, content: string)

  /** The result of the save callback: the new client-side list, the request sent, and whether the "saving" flag was cleared. */
  datatype SaveOutcome = SaveOutcome(documents: Option<seq<DocumentRow>>, request: Option<SaveRequest>, dirtyCleared: bool)

  /** The latest version exists and has non-empty content, so an edit can be compared with it. */
  predicate ComparableLatest(docs: seq<DocumentRow>) {
    |docs| > 0 && docs[|docs| - 1].content.Some? && docs[|docs| - 1].content.value != ""
  }

  /** The latest version is comparable and its content differs from the edit. */
  predicate ShouldAppend(docs: seq<DocumentRow>, updated: string) {
    ComparableLatest(docs) && docs[|docs| - 1].content.value != updated
  }

  /**
   * `handleContentChange`: the list update it hands to the cache. The new row
   * copies the latest one with the edited content and the time `now`; the
   * request carries the canvas title. `postFails` stands for the awaited
   * `fetch` rejecting (a network failure): the callback then throws, so the
   * cached list stays as it was and the "saving" flag is not cleared.
   */
  function HandleContentChange(documentId: string, canvasTitle: string, documents: Option<seq<DocumentRow>>,
                               updated: string, now: int, postFails: bool): (r: SaveOutcome)
    ensures documents.None? ==> r == SaveOutcome(None, None, false)
    ensures documents.Some? ==> r.documents.Some? && |r.documents.value| >= |documents.value|
    ensures documents.Some? ==> r.documents.value[..|documents.value|] == documents.value
    ensures documents.Some? ==>
              (|r.documents.value| == |documents.value| + 1 <==> ShouldAppend(documents.value, updated) && !postFails)
    ensures documents.Some? ==> |r.documents.value| <= |documents.value| + 1
    ensures documents.Some? && ShouldAppend(documents.value, updated) && !postFails ==>
              var prev := documents.value[|documents.value| - 1];
              r.documents.value[|documents.value|] == prev.(content := Some(updated), createdAt := now)
    ensures documents.Some? && ShouldAppend(documents.value, updated) && postFails ==>
              r == SaveOutcome(documents, Some(SaveRequest(documentId, canvasTitle, updated)), false)
    ensures r.request.Some? <==> documents.Some? && ShouldAppend(documents.value, updated)
    ensures r.request.Some? ==> r.request.value == SaveRequest(documentId, canvasTitle, updated)
    ensures r.dirtyCleared <==>
              documents.Some?
              && ((ShouldAppend(documents.value, updated) && !postFails) || !ComparableLatest(documents.value))
  {
    match documents
    case None => SaveOutcome(None, None, false)
    case Some(docs) =>
      if |docs| == 0 || docs[|docs| - 1].content.None? || docs[|docs| - 1].content.value == "" then
        SaveOutcome(documents, None, true)
      else
        var current := docs[|docs| - 1];
        if current.content.value != updated then
          var request := Some(SaveRequest(documentId, canvasTitle, updated));
          if postFails then SaveOutcome(documents, request, false)
          else SaveOutcome(Some(docs + [current.(content := Some(updated), createdAt := now)]), request, true)
        else
          SaveOutcome(documents, None, false)
  }

  /**
   * Saving the same text twice appends one version, not two, however the
   * second request fares; a save whose request failed leaves a retry free to append.
   */
  lemma SaveIdempotent(documentId: string, title: string, docs: seq<DocumentRow>, updated: string,
                       t1: int, t2: int, secondFails: bool)
    ensures var first := HandleContentChange(documentId, title, Some(docs), updated, t1, false);
            HandleContentChange(documentId, title, first.documents, updated, t2, secondFails).documents
              == first.documents
    ensures var failed := HandleContentChange(documentId, title, Some(docs), updated, t1, true);
            failed.documents == Some(docs)
            && HandleContentChange(documentId, title, failed.documents, updated, t2, false)
               == HandleContentChange(documentId, title, Some(docs), updated, t2, false)
  {
  }

  /**
   * `saveContent`: an edit is forwarded only when a row has been loaded and
   * the edit differs from that row's content; the result says whether it was.
   */
  function SaveContent(document: Option<DocumentRow>, documentId: string, canvasTitle: string,
                       documents: Option<seq<DocumentRow>>, updated: string, now: int, postFails: bool): (r: (bool, SaveOutcome))
    ensures !r.0 ==> r.1 == SaveOutcome(documents, None, false)
    ensures r.0 <==> document.Some? && document.value.content != Some(updated)
    ensures r.0 ==> r.1 == HandleContentChange(documentId, canvasTitle, documents, updated, now, postFails)
    ensures r.1.request.Some? ==>
              && documents.Some? && ShouldAppend(documents.value, updated)
              && r.1.request.value == SaveRequest(documentId, canvasTitle, updated)
  {
    if document.Some? && document.value.content != Some(updated) then
      (true, HandleContentChange(documentId, canvasTitle, documents, updated, now, postFails))
    else
      (false, SaveOutcome(documents, None, false))
  }

  /** Once the list has been loaded, re-submitting the text already shown adds no version. */
  lemma UnchangedEditSavesNothing(docs: seq<DocumentRow>, state: CanvasState, documentId: string,
                                  title: string, now: int, postFails: bool)
    requires |docs| > 0
    ensures var loaded := OnDocumentsLoaded(Some(docs), state);
            var r := SaveContent(loaded.document, documentId, title, Some(docs), docs[|docs| - 1].content.GetOr(""),
                                 now, postFails);
            r.1.documents == Some(docs) && r.1.request.None?
  {
  }
}
