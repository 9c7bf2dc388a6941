/**
 * The status controller: creating a status (validation of content and media,
 * the 24-hour lifetime), listing the live ones newest first, recording a
 * viewer, and deleting with an owner check. The decision logic is modelled as
 * the handlers evidently intend it; the lines that would throw at run time
 * are described in README.md.
 */
module StatusController {
  import opened Common
  import opened Domain
  import opened Database
  import opened Ordering

  // ---------------------------------------------------------------------
  // CreateStatus
  // ---------------------------------------------------------------------

  /** The three distinct 400 answers of the validation chain. */
  datatype Rejection = UploadFailed | UnsupportedFileType | ContentRequired

  function RejectionMessage(r: Rejection): string {
    match r
    case UploadFailed => "Failed to upload media"
    case UnsupportedFileType => "Unsupported file type"
    case ContentRequired => "Message content is required"
  }

  /** The outcome of validation: the content and type to store, a 400, or a
      500 when the upload itself throws into the handler's catch. */
  datatype Verdict = Accepted(content: string, contentType: ContentType) | Rejected(reason: Rejection) | Failed

  /** The verdict the guard chain reaches, as a value: the specification of
      `ValidateStatus` and of the answer of `CreateStatus`. */
  function VerdictOf(content: Option<string>, file: Option<File>, upload: Upload): (v: Verdict)
    ensures v.Accepted? ==> v.content != [] && (v.contentType == Text <==> file.None?)
    ensures v.Failed? <==> file.Some? && upload.UploadThrows?
    ensures v.Rejected? && v.reason == ContentRequired <==> file.None? && !HasText(content)
  {
    if file.Some? then
      if upload.UploadThrows? then Failed
      else if !Truthy(upload.secureUrl) then Rejected(UploadFailed)
      else if StartsWith(file.value.mimetype, "image") then Accepted(upload.secureUrl.value, Image)
      else if StartsWith(file.value.mimetype, "video") then Accepted(upload.secureUrl.value, Video)
      else Rejected(UnsupportedFileType)
    else if HasText(content) then Accepted(content.value, Text)
    else Rejected(ContentRequired)
  }

  /** The guard chain of `CreateStatus`. The client's `contentType` only seeds
      the default, which every accepting branch overwrites; the stored content
      is the media URL when there is a file and the untrimmed text otherwise. */
  method ValidateStatus(content: Option<string>, clientType: Option<string>, file: Option<File>, upload: Upload)
    returns (v: Verdict)
    ensures file.Some? && upload.UploadThrows? ==> v == Failed
    ensures file.Some? && upload.Uploaded? && !Truthy(upload.secureUrl) ==> v == Rejected(UploadFailed)
    ensures file.Some? && upload.Uploaded? && Truthy(upload.secureUrl) ==>
      if StartsWith(file.value.mimetype, "image") then v == Accepted(upload.secureUrl.value, Image)
      else if StartsWith(file.value.mimetype, "video") then v == Accepted(upload.secureUrl.value, Video)
      else v == Rejected(UnsupportedFileType)
    ensures file.None? ==>
      if HasText(content) then v == Accepted(content.value, Text) else v == Rejected(ContentRequired)
    ensures v.Accepted? ==> v.content != [] && (v.contentType == Text <==> file.None?)
    ensures v == VerdictOf(content, file, upload)
  {
    var mediaUrl: Option<string> := None;
    var finalContentType: ContentType := Text;
    if file.Some? {
      if upload.UploadThrows? {
        return Failed;
      }
      if !Truthy(upload.secureUrl) {
        return Rejected(UploadFailed);
      }
      mediaUrl := upload.secureUrl;
      if StartsWith(file.value.mimetype, "image") {
        finalContentType := Image;
      } else if StartsWith(file.value.mimetype, "video") {
        finalContentType := Video;
      } else {
        return Rejected(UnsupportedFileType);
      }
    } else if HasText(content) {
      finalContentType := Text;
    } else {
      return Rejected(ContentRequired);
    }
    var stored := if Truthy(mediaUrl) then mediaUrl.value else content.value;
    v := Accepted(stored, finalContentType);
  }

  /** Every stored status has a viewer list without repetitions. */
  ghost predicate ViewersDistinct(statuses: map<StatusId, Status>) {
    forall k :: k in statuses ==> Distinct(statuses[k].viewers)
  }

  /** `CreateStatus`: on an accepted verdict a new status owned by the caller,
      with no viewers, created now and expiring 24 hours later, answered 201;
      otherwise the store is unchanged and the answer is 400 with the reason's
      message or 500. */
  method CreateStatus(db: Db, user: UserId, content: Option<string>, clientType: Option<string>,
                      file: Option<File>, upload: Upload, now: Time)
    returns (code: nat, message: string, created: Option<StatusId>)
    requires db.Valid() && ViewersDistinct(db.statuses)
    modifies db`statuses, db`nextId
    ensures db.Valid() && ViewersDistinct(db.statuses)
    ensures created.Some? <==> code == 201
    ensures code == 201 ==>
      && created.value == old(db.nextId)
      && created.value !in old(db.statuses) && created.value in db.statuses
      && db.statuses[created.value].user == user
      && db.statuses[created.value].viewers == []
      && db.statuses[created.value].createdAt == now
      && db.statuses[created.value].expiresAt == now + DayMs
      && db.statuses[created.value].content != []
      && db.statuses == old(db.statuses)[created.value := db.statuses[created.value]]
    ensures code != 201 ==> db.statuses == old(db.statuses) && db.nextId == old(db.nextId)
    ensures code == 201 || code == 400 || code == 500
    ensures code == 400 ==> message in {RejectionMessage(UploadFailed), RejectionMessage(UnsupportedFileType),
                                        RejectionMessage(ContentRequired)}
    ensures code == 500 <==> file.Some? && upload.UploadThrows?
    ensures code == 201 ==> (db.statuses[created.value].contentType == Text <==> file.None?)
    ensures file.None? && HasText(content) ==> code == 201 && db.statuses[created.value].content == content.value
    ensures var v := VerdictOf(content, file, upload);
      && (code == 201 <==> v.Accepted?)
      && (v.Rejected? ==> code == 400 && message == RejectionMessage(v.reason))
      && (v.Failed? ==> code == 500)
      && (v.Accepted? ==> db.statuses[created.value].content == v.content
                          && db.statuses[created.value].contentType == v.contentType)
  {
    var v := ValidateStatus(content, clientType, file, upload);
    match v
    case Failed =>
      return 500, "Internal server error", None;
    case Rejected(reason) =>
      return 400, RejectionMessage(reason), None;
    case Accepted(stored, ct) =>
      var id := StoreStatus(db, Status(user, stored, ct, [], now, now + DayMs));
      return 201, "Status created successfully", Some(id);
  }

  /** `new Status(...).save()`: the document gets a fresh id. */
  method StoreStatus(db: Db, s: Status) returns (id: StatusId)
    requires db.Valid() && ViewersDistinct(db.statuses) && Distinct(s.viewers)
    modifies db`statuses, db`nextId
    ensures db.Valid() && ViewersDistinct(db.statuses)
    ensures id == old(db.nextId) && id !in old(db.statuses)
    ensures db.statuses == old(db.statuses)[id := s]
  {
    id := db.NewId();
    db.statuses := db.statuses[id := s];
  }

  // ---------------------------------------------------------------------
  // getStatus
  // ---------------------------------------------------------------------

  /** The `expiresAt: {$gt: now}` filter. */
  predicate IsLive(s: Status, now: Time) {
    s.expiresAt > now
  }

  /** The `createdAt: -1` sort key: ascending on it is newest first. */
  function NewestFirst(statuses: map<StatusId, Status>): StatusId -> int {
    k => if k in statuses then -statuses[k].createdAt else 0
  }

  /** A status created at `t` with the 24-hour lifetime is listed exactly
      while less than a day has passed. */
  lemma {:induction false} CreatedStatusLivesADay(s: Status, now: Time)
    requires s.expiresAt == s.createdAt + DayMs
    ensures IsLive(s, now) <==> now < s.createdAt + 24 * 60 * 60 * 1000
  {
    assert DayMs == 24 * 60 * 60 * 1000;
  }

  /** The live statuses in id order. */
  method LiveStatuses(db: Db, now: Time) returns (ids: seq<StatusId>)
    requires db.Valid()
    ensures forall k :: k in ids <==> k in db.statuses && IsLive(db.statuses[k], now)
    ensures forall i, j :: 0 <= i < j < |ids| ==> ids[i] < ids[j]
  {
    ids := [];
    var i := 0;
    while i < db.nextId
      invariant 0 <= i <= db.nextId
      invariant forall k :: k in ids <==> k < i && k in db.statuses && IsLive(db.statuses[k], now)
      invariant forall p, q :: 0 <= p < q < |ids| ==> ids[p] < ids[q]
      invariant forall p :: 0 <= p < |ids| ==> ids[p] < i
    {
      if i in db.statuses && IsLive(db.statuses[i], now) {
        ids := ids + [i];
      }
      i := i + 1;
    }
  }

  /** `getStatus`: every live status exactly once and no other, newest first. */
  method GetStatus(db: Db, now: Time) returns (list: seq<StatusId>)
    requires db.Valid()
    ensures forall k :: multiset(list)[k] == if k in db.statuses && IsLive(db.statuses[k], now) then 1 else 0
    ensures forall k :: k in list ==> k in db.statuses && IsLive(db.statuses[k], now)
    ensures forall i, j :: 0 <= i < j < |list| ==> db.statuses[list[i]].createdAt >= db.statuses[list[j]].createdAt
  {
    var ids := LiveStatuses(db, now);
    IncreasingCounts(ids);
    list := SortBy(ids, NewestFirst(db.statuses));
    forall k | k in list ensures k in db.statuses && IsLive(db.statuses[k], now) {
      assert k in multiset(list);
    }
    StoredNewestFirst(db.statuses, list);
  }

  /** Ascending on the sort key is descending on `createdAt`. */
  lemma StoredNewestFirst(statuses: map<StatusId, Status>, list: seq<StatusId>)
    requires SortedBy(list, NewestFirst(statuses))
    requires forall k :: k in list ==> k in statuses
    ensures forall i, j :: 0 <= i < j < |list| ==> statuses[list[i]].createdAt >= statuses[list[j]].createdAt
  {
    forall i, j | 0 <= i < j < |list| ensures statuses[list[i]].createdAt >= statuses[list[j]].createdAt {
      assert list[i] in list && list[j] in list;
      assert NewestFirst(statuses)(list[i]) <= NewestFirst(statuses)(list[j]);
    }
  }

  // ---------------------------------------------------------------------
  // viewStatus
  // ---------------------------------------------------------------------

  /** `if (!viewers.includes(v)) viewers.push(v)`: the viewer list read as a
      set gains `v`, its order is kept, and a repeat view changes nothing. */
  function AddViewer(viewers: seq<UserId>, v: UserId): (r: seq<UserId>)
    ensures forall x :: x in r <==> x in viewers || x == v
    ensures viewers <= r && |r| <= |viewers| + 1
    ensures v in viewers ==> r == viewers
    ensures Distinct(viewers) ==> Distinct(r)
  {
    if v in viewers then viewers else viewers + [v]
  }

  lemma {:induction false} AddViewerIdempotent(viewers: seq<UserId>, v: UserId)
    ensures AddViewer(AddViewer(viewers, v), v) == AddViewer(viewers, v)
  {
    assert v in AddViewer(viewers, v);
  }

  /** `viewStatus`: 404 for an unknown status; otherwise 200 with the caller
      recorded as a viewer of that status only. */
  method ViewStatus(db: Db, sid: StatusId, viewer: UserId) returns (code: nat)
    requires ViewersDistinct(db.statuses)
    modifies db`statuses
    ensures ViewersDistinct(db.statuses)
    ensures sid !in old(db.statuses) ==> code == 404 && db.statuses == old(db.statuses)
    ensures sid in old(db.statuses) ==>
      && code == 200
      && db.statuses == old(db.statuses)[sid := old(db.statuses)[sid].(viewers := AddViewer(old(db.statuses)[sid].viewers, viewer))]
  {
    if sid !in db.statuses {
      return 404;
    }
    var s := db.statuses[sid];
    if viewer !in s.viewers {
      db.statuses := db.statuses[sid := s.(viewers := s.viewers + [viewer])];
    }
    return 200;
  }

  // ---------------------------------------------------------------------
  // deleteStatus
  // ---------------------------------------------------------------------

  /** `deleteStatus`: 404 for an unknown status, 403 unless the caller owns it;
      otherwise it alone is removed. */
  method DeleteStatus(db: Db, sid: StatusId, user: UserId) returns (code: nat)
    modifies db`statuses
    ensures sid !in old(db.statuses) ==> code == 404 && db.statuses == old(db.statuses)
    ensures sid in old(db.statuses) && old(db.statuses)[sid].user != user ==> code == 403 && db.statuses == old(db.statuses)
    ensures sid in old(db.statuses) && old(db.statuses)[sid].user == user ==> code == 200 && db.statuses == old(db.statuses) - {sid}
    ensures ViewersDistinct(old(db.statuses)) ==> ViewersDistinct(db.statuses)
  {
    if sid !in db.statuses {
      return 404;
    }
    if db.statuses[sid].user != user {
      return 403;
    }
    db.statuses := db.statuses - {sid};
    return 200;
  }

  // ---------------------------------------------------------------------
  // The answers as written
  // ---------------------------------------------------------------------

  /** What a handler's call of its reply helper does. */
  datatype Reply = Answered(code: nat) | Throws

  /** `response(res, code, ...)` with `response` as line 5 binds it: that is
      Express's prototype of reply objects, which cannot be called, so the call
      throws whatever the code. The helper the handlers evidently mean is the
      one imported at line 3 under the name `reponse`. */
  function ResponseAsWritten(code: nat): Reply {
    Throws
  }

  /** The handlers' `catch`: a throw is answered with 500. */
  function Settled(r: Reply): nat {
    if r.Answered? then r.code else 500
  }

  /** The status code `getStatus` answers as written. */
  function GetStatusCodeAsWritten(): nat {
    Settled(ResponseAsWritten(200))
  }

  /** The status code `viewStatus` answers as written: a first view saves the
      viewer and then calls `Status.FindById`, which does not exist. */
  function ViewStatusCodeAsWritten(statuses: map<StatusId, Status>, sid: StatusId, viewer: UserId): nat {
    if sid !in statuses then Settled(ResponseAsWritten(404))
    else if viewer !in statuses[sid].viewers then Settled(Throws)
    else Settled(ResponseAsWritten(200))
  }

  /** The status code `deleteStatus` answers as written. The id is read from
      the request body, where the route `/:statusId` puts none, so it is
      missing and no status is found. */
  function DeleteStatusCodeAsWritten(statuses: map<StatusId, Status>, bodyId: Option<StatusId>, user: UserId): nat {
    if bodyId.None? || bodyId.value !in statuses then Settled(ResponseAsWritten(404))
    else if statuses[bodyId.value].user != user then Settled(ResponseAsWritten(403))
    else Settled(ResponseAsWritten(200))
  }

  /** The status code `CreateStatus` answers as written: the 400s are sent
      directly, but past validation the document is built from
      `imageOrVideoUrl` and `messageStatus`, names declared nowhere, so the
      handler throws before anything is saved. */
  function CreateStatusCodeAsWritten(v: Verdict): nat {
    match v
    case Failed => 500
    case Rejected(_) => 400
    case Accepted(_, _) => Settled(Throws)
  }

  /** As written, every route of the status controller except a rejected
      creation answers 500, on every input. */
  lemma StatusRoutesFailAsWritten(statuses: map<StatusId, Status>, sid: StatusId, bodyId: Option<StatusId>,
                                  user: UserId, v: Verdict)
    ensures GetStatusCodeAsWritten() == 500
    ensures ViewStatusCodeAsWritten(statuses, sid, user) == 500
    ensures DeleteStatusCodeAsWritten(statuses, bodyId, user) == 500
    ensures !v.Rejected? ==> CreateStatusCodeAsWritten(v) == 500
  {
  }

  /** A text status: validation accepts it, the handler as written still
      answers 500, and the corrected `CreateStatus` answers 201. */
  lemma TextStatusFailsAsWritten()
    ensures HasText(Some("hi"))
    ensures CreateStatusCodeAsWritten(Accepted("hi", Text)) == 500
  {
    assert Trim("hi") != "" by {
      assert !AllSpace("hi") by { assert !IsSpace("hi"[0]); }
    }
  }
}
