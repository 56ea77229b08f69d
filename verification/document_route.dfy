/**
 * The document version-log endpoints. A document is the set of rows that
 * share its id; the first stored row decides who owns it. `GET` returns all
 * versions, `POST` appends one, `PATCH` rolls back by deleting the versions
 * created after a timestamp.
 */
module DocumentRoute {
  import opened Options
  import opened Http
  import opened Store

  datatype GetResponse = GetResponse(status: Status, versions: seq<DocumentRow>)

  /** The outcome of a request that may write: its status and the version log afterwards. */
  datatype WriteResponse = WriteResponse(status: Status, log: VersionLog)

  /** The caller owns the document: its first stored version was written by them. */
  predicate OwnsDocument(log: VersionLog, id: string, user: User) {
    |VersionsOf(log, id)| > 0 && VersionsOf(log, id)[0].userId == user.id
  }

  /**
   * `GET /api/document?id=…`. The id is checked before the caller is;
   * `readFails` stands for the version query throwing, which escapes as 500.
   */
  function HandleGet(id: string, user: Option<User>, log: VersionLog, readFails: bool): (r: GetResponse)
    ensures id == "" ==> r == GetResponse(BadRequest, [])
    ensures id != "" && user.None? ==> r == GetResponse(Unauthorized, [])
    ensures id != "" && user.Some? && readFails ==> r == GetResponse(InternalError, [])
    ensures id != "" && user.Some? && !readFails && VersionsOf(log, id) == [] ==> r == GetResponse(NotFound, [])
    ensures (id != "" && user.Some? && !readFails && VersionsOf(log, id) != []
             && !OwnsDocument(log, id, user.value)) ==> r == GetResponse(Unauthorized, [])
    ensures r.status == Ok <==> id != "" && user.Some? && !readFails && OwnsDocument(log, id, user.value)
    ensures r.status == Ok ==> r.versions == VersionsOf(log, id)
  {
    if id == "" then GetResponse(BadRequest, [])
    else if user.None? then GetResponse(Unauthorized, [])
    else if readFails then GetResponse(InternalError, [])
    else
      var versions := VersionsOf(log, id);
      if |versions| == 0 then GetResponse(NotFound, [])
      else if versions[0].userId != user.value.id then GetResponse(Unauthorized, [])
      else GetResponse(Ok, versions)
  }

  /** The fields a `POST` body carries. */
  datatype DocumentPayload = DocumentPayload(content: string, title: string)

  /**
   * `POST /api/document?id=…` as written: after the id and caller checks it
   * reads the body (`None` when it is not JSON, which escapes as 500) and
   * appends a version owned by the caller, whoever owns the document.
   * `writeFails` stands for the save throwing, which also escapes as 500.
   */
  function HandlePost(id: string, user: Option<User>, body: Option<DocumentPayload>,
                      log: VersionLog, now: int, writeFails: bool): (r: WriteResponse)
    ensures id == "" ==> r == WriteResponse(BadRequest, log)
    ensures id != "" && user.None? ==> r == WriteResponse(Unauthorized, log)
    ensures id != "" && user.Some? && body.None? ==> r == WriteResponse(InternalError, log)
    ensures id != "" && user.Some? && body.Some? && !Identified(user) ==> r == WriteResponse(Unauthorized, log)
    ensures id != "" && Identified(user) && body.Some? && writeFails ==> r == WriteResponse(InternalError, log)
    ensures r.status != Ok ==> r.log == log
    ensures r.status == Ok <==> id != "" && Identified(user) && body.Some? && !writeFails
    ensures r.status == Ok ==>
              r.log == log + [DocumentRow(id, body.value.title, Some(body.value.content), user.value.id, now)]
  {
    if id == "" then WriteResponse(BadRequest, log)
    else if user.None? then WriteResponse(Unauthorized, log)
    else if body.None? then WriteResponse(InternalError, log)
    else if Identified(user) then
      if writeFails then WriteResponse(InternalError, log)
      else WriteResponse(Ok, log + [DocumentRow(id, body.value.title, Some(body.value.content), user.value.id, now)])
    else WriteResponse(Unauthorized, log)
  }

  /** Every version of the document was written by the owner of its first version. */
  predicate SingleOwner(log: VersionLog, id: string) {
    var versions := VersionsOf(log, id);
    forall i :: 0 <= i < |versions| ==> versions[i].userId == versions[0].userId
  }

  /**
   * The as-written `POST` lets a second user append a version to someone
   * else's document: starting from a single version, any other identified
   * caller's `POST` succeeds, the document then has two authors, and the
   * owner's next `GET` serves the intruder's text as the latest version.
   */
  lemma ForeignAppendAccepted(owner: User, other: User, first: DocumentRow, payload: DocumentPayload, now: int)
    requires first.id != "" && first.userId == owner.id
    requires other.id != "" && other.id != owner.id
    ensures var log := [first];
            var r := HandlePost(first.id, Some(other), Some(payload), log, now, false);
            var get := HandleGet(first.id, Some(owner), r.log, false);
            && r.status == Ok
            && SingleOwner(log, first.id)
            && !SingleOwner(r.log, first.id)
            && get.status == Ok
            && get.versions == [first] + [DocumentRow(first.id, payload.title, Some(payload.content), other.id, now)]
  {
    var row := DocumentRow(first.id, payload.title, Some(payload.content), other.id, now);
    TwoVersions(first, row);
    assert HandlePost(first.id, Some(other), Some(payload), [first], now, false) == WriteResponse(Ok, [first] + [row]);
    var after := VersionsOf([first] + [row], first.id);
    assert !SingleOwner([first] + [row], first.id) by {
      assert after[1].userId != after[0].userId;
    }
    assert HandleGet(first.id, Some(owner), [first] + [row], false) == GetResponse(Ok, after);
  }

  /** A log holding one version and then another of the same document lists both, oldest first. */
  lemma TwoVersions(first: DocumentRow, row: DocumentRow)
    requires row.id == first.id
    ensures VersionsOf([first], first.id) == [first]
    ensures VersionsOf([first] + [row], first.id) == [first] + [row]
  {
    VersionsOfAppend([], first, first.id);
    assert [] + [first] == [first];
    VersionsOfAppend([first], row, first.id);
  }

  /** The run the finding describes: Alice writes `doc`, Mallory appends to it, Alice reads Mallory's text. */
  lemma ForeignAppendExample()
    ensures var log := [DocumentRow("doc", "Essay", Some("draft"), "alice", 1)];
            var r := HandlePost("doc", Some(User("mallory")), Some(DocumentPayload("defaced", "Essay")), log, 2, false);
            var get := HandleGet("doc", Some(User("alice")), r.log, false);
            && r.status == Ok
            && get.status == Ok
            && get.versions[|get.versions| - 1].content == Some("defaced")
            && get.versions[|get.versions| - 1].userId == "mallory"
  {
    ForeignAppendAccepted(User("alice"), User("mallory"), DocumentRow("doc", "Essay", Some("draft"), "alice", 1),
                          DocumentPayload("defaced", "Essay"), 2);
  }

  /**
   * `POST` with the ownership check the sibling handlers make: appending to
   * an existing document is refused with 401 unless the caller owns it.
   */
  function HandlePostOwned(id: string, user: Option<User>, body: Option<DocumentPayload>,
                           log: VersionLog, now: int, readFails: bool, writeFails: bool): (r: WriteResponse)
    ensures id == "" ==> r == WriteResponse(BadRequest, log)
    ensures id != "" && user.None? ==> r == WriteResponse(Unauthorized, log)
    ensures id != "" && user.Some? && body.None? ==> r == WriteResponse(InternalError, log)
    ensures id != "" && user.Some? && body.Some? && !Identified(user) ==> r == WriteResponse(Unauthorized, log)
    ensures id != "" && Identified(user) && body.Some? && readFails ==> r == WriteResponse(InternalError, log)
    ensures (id != "" && Identified(user) && body.Some? && !readFails && writeFails
             && (VersionsOf(log, id) == [] || OwnsDocument(log, id, user.value))) ==> r == WriteResponse(InternalError, log)
    ensures r.status != Ok ==> r.log == log
    ensures r.status == Ok <==>
              id != "" && Identified(user) && body.Some? && !readFails && !writeFails
              && (VersionsOf(log, id) == [] || OwnsDocument(log, id, user.value))
    ensures r.status == Ok ==>
              r.log == log + [DocumentRow(id, body.value.title, Some(body.value.content), user.value.id, now)]
    ensures (id != "" && Identified(user) && body.Some? && !readFails && VersionsOf(log, id) != []
             && !OwnsDocument(log, id, user.value)) ==> r == WriteResponse(Unauthorized, log)
  {
    if id == "" then WriteResponse(BadRequest, log)
    else if user.None? then WriteResponse(Unauthorized, log)
    else if body.None? then WriteResponse(InternalError, log)
    else if !Identified(user) then WriteResponse(Unauthorized, log)
    else if readFails then WriteResponse(InternalError, log)
    else
      var versions := VersionsOf(log, id);
      if |versions| > 0 && versions[0].userId != user.value.id then WriteResponse(Unauthorized, log)
      else if writeFails then WriteResponse(InternalError, log)
      else WriteResponse(Ok, log + [DocumentRow(id, body.value.title, Some(body.value.content), user.value.id, now)])
  }

  /** With the check, a document keeps a single owner, and its first version stays the same. */
  lemma PostOwnedKeepsSingleOwner(id: string, user: Option<User>, body: Option<DocumentPayload>,
                                  log: VersionLog, now: int, readFails: bool, writeFails: bool)
    requires SingleOwner(log, id)
    ensures var r := HandlePostOwned(id, user, body, log, now, readFails, writeFails);
            && SingleOwner(r.log, id)
            && (VersionsOf(log, id) != [] ==> VersionsOf(r.log, id)[0] == VersionsOf(log, id)[0])
  {
    var r := HandlePostOwned(id, user, body, log, now, readFails, writeFails);
    if r.status == Ok {
      var row := DocumentRow(id, body.value.title, Some(body.value.content), user.value.id, now);
      VersionsOfAppend(log, row, id);
      var before := VersionsOf(log, id);
      var after := VersionsOf(r.log, id);
      assert after == before + [row];
      forall i | 0 <= i < |after| ensures after[i].userId == after[0].userId {
        if i < |before| {
          assert after[i] == before[i];
        }
      }
    }
  }

  /**
   * After a successful corrected `POST`, the caller's `GET` succeeds and
   * serves the appended version as the latest, and any other user's `GET`
   * is refused with 401.
   */
  lemma OwnedPostServedToOwnerOnly(id: string, user: User, body: DocumentPayload, log: VersionLog, now: int,
                                   reader: User)
    ensures var r := HandlePostOwned(id, Some(user), Some(body), log, now, false, false);
            r.status == Ok ==>
              var get := HandleGet(id, Some(user), r.log, false);
              && get.status == Ok
              && get.versions[|get.versions| - 1] == DocumentRow(id, body.title, Some(body.content), user.id, now)
              && (reader.id != user.id ==> HandleGet(id, Some(reader), r.log, false).status == Unauthorized)
  {
    var r := HandlePostOwned(id, Some(user), Some(body), log, now, false, false);
    if r.status == Ok {
      var row := DocumentRow(id, body.title, Some(body.content), user.id, now);
      var before := VersionsOf(log, id);
      VersionsOfAppend(log, row, id);
      var after := VersionsOf(r.log, id);
      assert after == before + [row];
      assert after[0].userId == user.id by {
        if before != [] {
          assert after[0] == before[0];
        }
      }
      assert OwnsDocument(r.log, id, user);
    }
  }

  /** `deleteDocumentsByIdAfterTimestamp`: drop the versions of `id` created after `timestamp`. */
  function DeleteAfter(log: VersionLog, id: string, timestamp: int): (r: VersionLog)
    ensures |r| <= |log|
    ensures forall row {:trigger row in r} :: row in r <==> row in log && !(row.id == id && row.createdAt > timestamp)
    decreases |log|
  {
    if |log| == 0 then []
    else
      var last := log[|log| - 1];
      DeleteAfter(log[..|log| - 1], id, timestamp) + (if last.id == id && last.createdAt > timestamp then [] else [last])
  }

  /** The versions of a document created no later than `timestamp`, in order. */
  function UpTo(versions: seq<DocumentRow>, timestamp: int): seq<DocumentRow>
    decreases |versions|
  {
    if |versions| == 0 then []
    else
      var last := versions[|versions| - 1];
      UpTo(versions[..|versions| - 1], timestamp) + (if last.createdAt > timestamp then [] else [last])
  }

  /** Deleting after a timestamp keeps exactly the earlier versions of that document, in order. */
  lemma {:induction false} DeleteAfterVersions(log: VersionLog, id: string, timestamp: int)
    ensures VersionsOf(DeleteAfter(log, id, timestamp), id) == UpTo(VersionsOf(log, id), timestamp)
    decreases |log|
  {
    if |log| > 0 {
      var init, last := log[..|log| - 1], log[|log| - 1];
      DeleteAfterVersions(init, id, timestamp);
      var kept := DeleteAfter(init, id, timestamp);
      var before := VersionsOf(init, id);
      if last.id != id {
        assert DeleteAfter(log, id, timestamp) == kept + [last];
        VersionsOfAppend(kept, last, id);
        assert VersionsOf(log, id) == before;
      } else {
        var vs := VersionsOf(log, id);
        assert vs == before + [last];
        assert vs[..|vs| - 1] == before;
        if last.createdAt > timestamp {
          assert DeleteAfter(log, id, timestamp) == kept + [];
          assert kept + [] == kept;
        } else {
          assert DeleteAfter(log, id, timestamp) == kept + [last];
          VersionsOfAppend(kept, last, id);
        }
      }
    }
  }

  /** Deleting the later versions of one document leaves every other document as it was. */
  lemma {:induction false} DeleteAfterKeepsOthers(log: VersionLog, id: string, timestamp: int, other: string)
    requires other != id
    ensures VersionsOf(DeleteAfter(log, id, timestamp), other) == VersionsOf(log, other)
    decreases |log|
  {
    if |log| > 0 {
      var init, last := log[..|log| - 1], log[|log| - 1];
      DeleteAfterKeepsOthers(init, id, timestamp, other);
      var kept := DeleteAfter(init, id, timestamp);
      if last.id == id && last.createdAt > timestamp {
        assert DeleteAfter(log, id, timestamp) == kept + [];
        assert kept + [] == kept;
      } else {
        assert DeleteAfter(log, id, timestamp) == kept + [last];
        VersionsOfAppend(kept, last, other);
      }
    }
  }

  /** The versions are in creation order: each is no older than the one before it. */
  predicate Chronological(versions: seq<DocumentRow>)
    decreases |versions|
  {
    |versions| <= 1
    || (&& Chronological(versions[..|versions| - 1])
        && versions[|versions| - 2].createdAt <= versions[|versions| - 1].createdAt)
  }

  /** A rollback never adds versions. */
  lemma {:induction false} UpToShrinks(versions: seq<DocumentRow>, timestamp: int)
    ensures |UpTo(versions, timestamp)| <= |versions|
    decreases |versions|
  {
    if |versions| > 0 {
      UpToShrinks(versions[..|versions| - 1], timestamp);
    }
  }

  /** Rolling back a history with one more version decides that version on its own. */
  lemma UpToSnoc(init: seq<DocumentRow>, last: DocumentRow, timestamp: int)
    ensures UpTo(init + [last], timestamp) == UpTo(init, timestamp) + (if last.createdAt > timestamp then [] else [last])
  {
    assert (init + [last])[..|init|] == init;
  }

  /** On a chronological history, rolling back keeps a prefix: the versions up to some point. */
  lemma {:induction false} RollbackKeepsPrefix(versions: seq<DocumentRow>, timestamp: int)
    requires Chronological(versions)
    ensures |UpTo(versions, timestamp)| <= |versions|
    ensures UpTo(versions, timestamp) == versions[..|UpTo(versions, timestamp)|]
    ensures forall i :: |UpTo(versions, timestamp)| <= i < |versions| ==> versions[i].createdAt > timestamp
    decreases |versions|
  {
    UpToShrinks(versions, timestamp);
    if |versions| > 0 {
      var n := |versions| - 1;
      var init, last := versions[..n], versions[n];
      assert versions == init + [last];
      RollbackKeepsPrefix(init, timestamp);
      UpToSnoc(init, last, timestamp);
      var kept := UpTo(init, timestamp);
      if last.createdAt <= timestamp {
        assert |kept| == n;
        assert kept == init;
      } else {
        assert init[..|kept|] == versions[..|kept|];
        forall i | |kept| <= i < |versions| ensures versions[i].createdAt > timestamp {
          if i < n {
            assert versions[i] == init[i];
          }
        }
      }
    }
  }

  /**
   * `PATCH /api/document?id=…`: the body is read first (`None` when it is
   * not JSON, which escapes as 500, even before a missing id is noticed).
   * An empty history makes the owner check read a field of nothing, which
   * also escapes as 500, as does the version query (`readFails`) or the
   * delete (`deleteFails`) throwing.
   */
  function HandlePatch(id: string, user: Option<User>, timestamp: Option<int>, log: VersionLog,
                       readFails: bool, deleteFails: bool): (r: WriteResponse)
    ensures timestamp.None? ==> r == WriteResponse(InternalError, log)
    ensures timestamp.Some? && id == "" ==> r == WriteResponse(BadRequest, log)
    ensures timestamp.Some? && id != "" && user.None? ==> r == WriteResponse(Unauthorized, log)
    ensures timestamp.Some? && id != "" && user.Some? && readFails ==> r == WriteResponse(InternalError, log)
    ensures timestamp.Some? && id != "" && user.Some? && !readFails && VersionsOf(log, id) == [] ==>
              r == WriteResponse(InternalError, log)
    ensures (timestamp.Some? && id != "" && user.Some? && !readFails && VersionsOf(log, id) != []
             && !OwnsDocument(log, id, user.value)) ==> r == WriteResponse(Unauthorized, log)
    ensures (timestamp.Some? && id != "" && user.Some? && !readFails && OwnsDocument(log, id, user.value)
             && deleteFails) ==> r == WriteResponse(InternalError, log)
    ensures r.status != Ok ==> r.log == log
    ensures r.status == Ok <==>
              timestamp.Some? && id != "" && user.Some? && !readFails && !deleteFails
              && OwnsDocument(log, id, user.value)
    ensures r.status == Ok ==> r.log == DeleteAfter(log, id, timestamp.value)
  {
    if timestamp.None? then WriteResponse(InternalError, log)
    else if id == "" then WriteResponse(BadRequest, log)
    else if user.None? then WriteResponse(Unauthorized, log)
    else if readFails then WriteResponse(InternalError, log)
    else
      var versions := VersionsOf(log, id);
      if |versions| == 0 then WriteResponse(InternalError, log)
      else if versions[0].userId != user.value.id then WriteResponse(Unauthorized, log)
      else if deleteFails then WriteResponse(InternalError, log)
      else WriteResponse(Ok, DeleteAfter(log, id, timestamp.value))
  }

  /** A rollback by the owner keeps the first version whenever it is not itself after the timestamp. */
  lemma {:induction false} PatchKeepsOwnership(id: string, user: User, timestamp: int, log: VersionLog)
    requires OwnsDocument(log, id, user)
    requires VersionsOf(log, id)[0].createdAt <= timestamp
    ensures var r := HandlePatch(id, Some(user), Some(timestamp), log, false, false);
            id != "" ==> r.status == Ok && OwnsDocument(r.log, id, user)
  {
    var vs := VersionsOf(log, id);
    DeleteAfterVersions(log, id, timestamp);
    UpToKeepsFirst(vs, timestamp);
  }

  lemma {:induction false} UpToKeepsFirst(versions: seq<DocumentRow>, timestamp: int)
    requires |versions| > 0 && versions[0].createdAt <= timestamp
    ensures |UpTo(versions, timestamp)| > 0 && UpTo(versions, timestamp)[0] == versions[0]
    decreases |versions|
  {
    if |versions| > 1 {
      var init := versions[..|versions| - 1];
      UpToKeepsFirst(init, timestamp);
    }
  }
}
