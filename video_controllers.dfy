/** The video handlers: the public listing with search, sort and paging, publishing a video,
    fetching one, updating, deleting and toggling whether it is published. */
module VideoControllers {
  import opened Results
  import opened Text
  import opened Query
  import opened Ordering
  import opened Documents
  import opened VideoModel
  import opened Store

  /** `$regex: query, $options: "i"` on the title or the description; no query matches all. */
  predicate MatchesQuery(v: Video, query: string)
    ensures MatchesQuery(v, query) ==> |query| <= |v.fields.title| || |query| <= |v.fields.description|
  {
    query == "" || ContainsIgnoringCase(v.fields.title, query) || ContainsIgnoringCase(v.fields.description, query)
  }

  /** The search does not depend on the case of the query. */
  lemma MatchesQueryIgnoresCase(v: Video, query: string)
    ensures MatchesQuery(v, query) <==> MatchesQuery(v, Lower(query))
  {
    ContainsIgnoresQueryCase(v.fields.title, query);
    ContainsIgnoresQueryCase(v.fields.description, query);
  }

  /** The listing's `$match` stage: published, owned by `userId` when one is given, and
      matching the query when one is given. */
  predicate Listed(v: Video, userId: Id, query: string)
    ensures query == "" ==> (Listed(v, userId, query) <==> v.fields.isPublished && (userId == "" || v.owner == userId))
    ensures Listed(v, userId, query) ==> |query| <= |v.fields.title| || |query| <= |v.fields.description|
  {
    v.fields.isPublished && (userId == "" || v.owner == userId) && MatchesQuery(v, query)
  }

  /** The videos the `$match` stage lets through, in natural order. */
  function ListedVideos(videos: seq<Video>, userId: Id, query: string): (r: seq<Video>)
    ensures forall v :: v in r <==> v in videos && Listed(v, userId, query)
    ensures |r| <= |videos|
  {
    Filter(videos, (v: Video) => Listed(v, userId, query))
  }

  /** The `$match` stage as written: it compares the stored `owner`, a String under the schema,
      with `new ObjectId(userId)`; an aggregation stage does not cast, and a string never equals
      an ObjectId, so no video passes once a user id is given. */
  predicate ListedAsWritten(v: Video, userId: Id, query: string)
    ensures ListedAsWritten(v, userId, query) ==> Listed(v, userId, query)
    ensures userId == "" ==> (ListedAsWritten(v, userId, query) <==> Listed(v, userId, query))
    ensures userId != "" ==> !ListedAsWritten(v, userId, query)
  {
    v.fields.isPublished && userId == "" && MatchesQuery(v, query)
  }

  /** The input that shows it: a published video of user `u`, listed with `userId = u`, is left
      out by the stage as written and kept by the corrected one. */
  lemma OwnerFilterAsWrittenDropsOwnVideos(v: Video, query: string)
    requires v.owner != "" && v.fields.isPublished && MatchesQuery(v, query)
    ensures !ListedAsWritten(v, v.owner, query)
    ensures Listed(v, v.owner, query)
  {
  }

  /** `Number(x) || d`: zero (and NaN, which this model does not represent) becomes the default. */
  function OrDefault(n: int, d: int): (r: int)
    ensures r != 0 || d == 0
    ensures n != 0 ==> r == n
    ensures n == 0 ==> r == d
  {
    if n == 0 then d else n
  }

  /** The sort stage: on `sortBy`, ascending exactly when `sortType` is "asc"; newest first
      when no `sortBy` is given. */
  function SortOrder(sortBy: string, sortType: string): (r: (string, bool))
    ensures sortBy == "" ==> r == ("createdAt", false)
    ensures sortBy != "" ==> r.0 == sortBy && (r.1 <==> sortType == "asc")
  {
    if sortBy != "" then (sortBy, sortType == "asc") else ("createdAt", false)
  }

  /** The kind of value every video holds under a sort field (see `Rank`): dates, numbers,
      strings, booleans, or missing for a field a video lacks. */
  function FieldRank(field: string): nat {
    if field == "createdAt" then 4
    else if field in {"views", "duration"} then 1
    else if field in {"title", "description", "videoFile", "thumbnail", "_id"} then 2
    else if field == "isPublished" then 3
    else 0
  }

  /** The value a video has under a sort field. Fields a video lacks (and `owner`, which the
      lookup stage replaces) sort as missing. All videos hold the same kind of value under one
      field, so the sort compares values, never kinds. */
  function KeyOf(field: string, v: Video): (k: Key)
    ensures Rank(k) == FieldRank(field)
    ensures field == "createdAt" ==> k == Date(v.createdAt)
  {
    if field == "createdAt" then Date(v.createdAt)
    else if field == "views" then Number(v.fields.views as real)
    else if field == "duration" then Number(v.fields.duration)
    else if field == "title" then Text(v.fields.title)
    else if field == "description" then Text(v.fields.description)
    else if field == "videoFile" then Text(v.fields.videoFile)
    else if field == "thumbnail" then Text(v.fields.thumbnail)
    else if field == "_id" then Text(v.id)
    else if field == "isPublished" then Flag(v.fields.isPublished)
    else Missing
  }

  function KeyFn(field: string): Video -> Key {
    (v: Video) => KeyOf(field, v)
  }

  /** The default sort (`createdAt`, descending) orders videos exactly as `{ createdAt: -1 }`
      does: newest first. */
  lemma DefaultSortIsNewestFirst(s: seq<Video>)
    ensures SortedBy(s, KeyFn("createdAt"), false) <==>
      forall i, j :: 0 <= i < j < |s| ==> s[j].createdAt <= s[i].createdAt
  {
    forall i, j | 0 <= i < j < |s|
      ensures InOrder(KeyFn("createdAt")(s[i]), KeyFn("createdAt")(s[j]), false) <==> s[j].createdAt <= s[i].createdAt
    {
      assert KeyFn("createdAt")(s[i]) == Date(s[i].createdAt);
      assert KeyFn("createdAt")(s[j]) == Date(s[j].createdAt);
    }
  }

  /** What aggregatePaginate answers: the page's documents and the number of matches. */
  datatype VideoPage = VideoPage(docs: seq<Video>, totalDocs: nat)

  /** getAllVideos (no authentication): 400 when a given user id is ill-formed; otherwise the
      matching videos, sorted, one page of them, with the number of all matches. */
  function GetAllVideos(db: Db, query: string, sortBy: string, sortType: string, userId: Id, page: int, limit: int)
    : (r: Result<VideoPage>)
    reads db
    ensures userId != "" && db.Malformed(userId) ==> r == Err(BadRequest)
    ensures !(userId != "" && db.Malformed(userId)) ==>
      (r.Ok? <==> (OrDefault(page, 1) - 1) * OrDefault(limit, 10) >= 0)
    ensures r.Err? ==> r.code in {BadRequest, ServerError}
    ensures r.Ok? ==> r.value.totalDocs == |ListedVideos(db.videos, userId, query)|
    ensures r.Ok? ==> forall v :: v in r.value.docs ==> v in db.videos && Listed(v, userId, query)
    ensures r.Ok? ==> |r.value.docs| <= Abs(OrDefault(limit, 10))
    ensures r.Ok? ==> var (field, ascending) := SortOrder(sortBy, sortType);
      SortedBy(r.value.docs, KeyFn(field), ascending)
    ensures r.Ok? ==> r.value.docs == Window(SortedMatches(db, query, sortBy, sortType, userId),
                                             (OrDefault(page, 1) - 1) * OrDefault(limit, 10), OrDefault(limit, 10))
  {
    if userId != "" && db.Malformed(userId) then Err(BadRequest)
    else
      var matches := ListedVideos(db.videos, userId, query);
      var (field, ascending) := SortOrder(sortBy, sortType);
      assert SortBy(matches, KeyFn(field), ascending) == SortedMatches(db, query, sortBy, sortType, userId);
      match SortedPage(matches, KeyFn(field), ascending, OrDefault(page, 1), OrDefault(limit, 10))
      case Err(code) => Err(code)
      case Ok(docs) => Ok(VideoPage(docs, |matches|))
  }

  /** The first page holds every match when the page size is at least the number of matches:
      the listing neither loses nor invents a video. */
  lemma FirstPageHoldsAllMatches(db: Db, query: string, sortBy: string, sortType: string, userId: Id, limit: int)
    requires !(userId != "" && db.Malformed(userId))
    requires |ListedVideos(db.videos, userId, query)| <= Abs(OrDefault(limit, 10))
    ensures var r := GetAllVideos(db, query, sortBy, sortType, userId, 1, limit);
      r.Ok? && multiset(r.value.docs) == multiset(ListedVideos(db.videos, userId, query))
  {
  }

  /** All the matches, in the order the listing sorts them. */
  function SortedMatches(db: Db, query: string, sortBy: string, sortType: string, userId: Id): seq<Video>
    reads db
  {
    SortBy(ListedVideos(db.videos, userId, query), KeyFn(SortOrder(sortBy, sortType).0), SortOrder(sortBy, sortType).1)
  }

  /** Paging through the listing neither skips nor repeats a video: page `k` (from 1) of size
      `limit` holds the sorted matches from where page `k - 1` ends to where page `k` ends. */
  lemma VideoPageSlice(db: Db, query: string, sortBy: string, sortType: string, userId: Id, k: nat, limit: nat)
    requires k >= 1 && limit >= 1 && !(userId != "" && db.Malformed(userId))
    ensures var all := SortedMatches(db, query, sortBy, sortType, userId);
      var r := GetAllVideos(db, query, sortBy, sortType, userId, k, limit);
      && PagesEnd(k - 1, limit, |all|) <= PagesEnd(k, limit, |all|)
      && r.Ok? && r.value.docs == all[PagesEnd(k - 1, limit, |all|)..PagesEnd(k, limit, |all|)]
  {
    PageIsSlice(SortedMatches(db, query, sortBy, sortType, userId), k, limit);
  }

  /** What the upload service answered for a file: its URL and, for a video, its duration. */
  datatype Upload = Upload(url: string, duration: Option<real>)

  /** publishAVideo: 400 (not 401, unlike every other handler) without a caller, 400 when title or description is empty, 400 when the
      thumbnail file is missing, 500 when its upload fails, 400 when the video file is missing,
      500 when its upload fails, 500 when the document fails validation or its id is taken;
      otherwise a new published video of the caller with both URLs and the video's duration.
      The upload results are parameters: the upload service is outside this model. */
  method PublishAVideo(db: Db, caller: Option<Id>, title: string, description: string,
                       thumbnailPath: string, thumbnailUpload: Option<Upload>,
                       videoPath: string, videoUpload: Option<Upload>, newId: Id, now: nat)
    returns (r: Result<Video>)
    requires db.Valid()
    modifies db
    ensures db.Valid()
    ensures r.Err? ==> db.State() == old(db.State())
    ensures caller.None? ==> r == Err(BadRequest)
    ensures caller.Some? && (title == "" || description == "") ==> r == Err(BadRequest)
    ensures caller.Some? && title != "" && description != "" && thumbnailPath == "" ==> r == Err(BadRequest)
    ensures caller.Some? && title != "" && description != "" && thumbnailPath != "" ==>
      && (thumbnailUpload.None? ==> r == Err(ServerError))
      && (thumbnailUpload.Some? && videoPath == "" ==> r == Err(BadRequest))
      && (thumbnailUpload.Some? && videoPath != "" && videoUpload.None? ==> r == Err(ServerError))
    ensures r.Ok? ==>
      && caller.Some? && thumbnailUpload.Some? && videoUpload.Some? && videoUpload.value.duration.Some?
      && r.value.id == newId && r.value.owner == caller.value && r.value.createdAt == now
      && r.value.fields == VideoFields(videoUpload.value.url, thumbnailUpload.value.url, title, description,
                                       videoUpload.value.duration.value, 0, true)
      && db.State() == old(db.State()).(videos := old(db.videos) + [r.value])
    ensures caller.Some? && caller.value != "" && title != "" && description != "" && thumbnailPath != "" && videoPath != ""
      && thumbnailUpload.Some? && thumbnailUpload.value.url != ""
      && videoUpload.Some? && videoUpload.value.url != "" && videoUpload.value.duration.Some?
      ==> (r.Ok? <==> Find(old(db.videos), newId).None?)
  {
    if caller.None? {
      return Err(BadRequest);
    }
    if title == "" || description == "" {
      return Err(BadRequest);
    }
    if thumbnailPath == "" {
      return Err(BadRequest);
    }
    if thumbnailUpload.None? {
      return Err(ServerError);
    }
    if videoPath == "" {
      return Err(BadRequest);
    }
    if videoUpload.None? {
      return Err(ServerError);
    }
    var input := VideoInput(videoUpload.value.url, thumbnailUpload.value.url, caller.value, title, description,
                            videoUpload.value.duration);
    var created := CreateVideo(input, newId, now);
    if created.Err? {
      return Err(created.code);
    }
    if Find(db.videos, newId).Some? {
      // the insert is refused with a duplicate-key error
      return Err(ServerError);
    }
    UniqueAfterAppend(db.videos, created.value);
    ConsistentWithVideos(db.State(), db.videos + [created.value]);
    db.videos := db.videos + [created.value];
    r := Ok(created.value);
  }

  /** `findOne({ _id: videoId, isPublished: true })`: the position of the video when it
      exists and is published. */
  function FindPublished(videos: seq<Video>, videoId: Id): (r: Option<nat>)
    ensures r.Some? ==> r.value < |videos| && videos[r.value].id == videoId && videos[r.value].fields.isPublished
    ensures r.None? ==> Find(videos, videoId).None? || !videos[Find(videos, videoId).value].fields.isPublished
  {
    match Find(videos, videoId)
    case None => None
    case Some(k) => if videos[k].fields.isPublished then Some(k) else None
  }

  /** getVideoById (no authentication): 400 for a missing or ill-formed id, 404 when no
      published video has it; unpublished videos are hidden from everyone, their owner too. */
  function GetVideoById(db: Db, videoId: Id): (r: Result<Video>)
    reads db
    ensures db.Malformed(videoId) ==> r == Err(BadRequest)
    ensures !db.Malformed(videoId) ==> (r.Ok? <==> FindPublished(db.videos, videoId).Some?)
    ensures r.Err? ==> r.code in {BadRequest, NotFound}
    ensures r.Ok? ==> r.value in db.videos && r.value.id == videoId && r.value.fields.isPublished
  {
    if db.Malformed(videoId) then Err(BadRequest)
    else match FindPublished(db.videos, videoId)
      case None => Err(NotFound)
      case Some(k) => Ok(db.videos[k])
  }

  /** A published video is found by its id. */
  lemma PublishedVideoIsVisible(db: Db, k: nat)
    requires db.Valid() && k < |db.videos|
    requires db.videos[k].fields.isPublished && !db.Malformed(db.videos[k].id)
    ensures GetVideoById(db, db.videos[k].id) == Ok(db.videos[k])
  {
    FindUnique(db.videos, k);
  }

  /** The video after the update payload: each non-empty field replaces the stored one. */
  function Patched(v: Video, title: string, description: string, thumbnail: string): (r: Video)
    ensures r.id == v.id && r.owner == v.owner && r.createdAt == v.createdAt
    ensures r.fields.videoFile == v.fields.videoFile && r.fields.duration == v.fields.duration
    ensures r.fields.views == v.fields.views && r.fields.isPublished == v.fields.isPublished
    ensures r.fields.title == (if title != "" then title else v.fields.title)
    ensures r.fields.description == (if description != "" then description else v.fields.description)
    ensures r.fields.thumbnail == (if thumbnail != "" then thumbnail else v.fields.thumbnail)
  {
    var f := v.fields;
    var f := if title != "" then f.(title := title) else f;
    var f := if description != "" then f.(description := description) else f;
    var f := if thumbnail != "" then f.(thumbnail := thumbnail) else f;
    v.(fields := f)
  }

  /** The guard of updateVideo: 401, 400, 404 when the video is missing or unpublished, 403. */
  function PublishedOwnerGuard(db: Db, caller: Option<Id>, videoId: Id): (r: Result<nat>)
    reads db
    ensures caller.None? ==> r == Err(Unauthenticated)
    ensures caller.Some? && db.Malformed(videoId) ==> r == Err(BadRequest)
    ensures caller.Some? && !db.Malformed(videoId) && FindPublished(db.videos, videoId).None? ==> r == Err(NotFound)
    ensures caller.Some? && !db.Malformed(videoId) && FindPublished(db.videos, videoId).Some? ==>
      r == (if db.videos[FindPublished(db.videos, videoId).value].owner == caller.value
            then Ok(FindPublished(db.videos, videoId).value) else Err(Forbidden))
  {
    if caller.None? then Err(Unauthenticated)
    else if db.Malformed(videoId) then Err(BadRequest)
    else match FindPublished(db.videos, videoId)
      case None => Err(NotFound)
      case Some(k) => if db.videos[k].owner == caller.value then Ok(k) else Err(Forbidden)
  }

  /** updateVideo: after the guard, 400 when title, description and thumbnail are all empty;
      otherwise the non-empty ones replace the stored values. */
  method UpdateVideo(db: Db, caller: Option<Id>, videoId: Id, title: string, description: string, thumbnail: string)
    returns (r: Result<Video>)
    requires db.Valid()
    modifies db
    ensures db.Valid()
    ensures r.Err? ==> db.State() == old(db.State())
    ensures var g := old(PublishedOwnerGuard(db, caller, videoId));
      && (g.Err? ==> r == Err(g.code))
      && (g.Ok? && title == "" && description == "" && thumbnail == "" ==> r == Err(BadRequest))
      && (g.Ok? && (title != "" || description != "" || thumbnail != "") ==>
            && r == Ok(Patched(old(db.videos)[g.value], title, description, thumbnail))
            && db.State() == old(db.State()).(videos := old(db.videos)[g.value := r.value]))
    ensures r.Ok? ==> r.value.owner == caller.value
  {
    var g := PublishedOwnerGuard(db, caller, videoId);
    if g.Err? {
      return Err(g.code);
    }
    if title == "" && description == "" && thumbnail == "" {
      return Err(BadRequest);
    }
    var v := Patched(db.videos[g.value], title, description, thumbnail);
    UniqueAfterReplace(db.videos, g.value, v);
    ConsistentWithVideos(db.State(), db.videos[g.value := v]);
    db.videos := db.videos[g.value := v];
    r := Ok(v);
  }

  /** deleteVideo: the id is checked (400) before the caller (401), then 404 and 403; the video
      is removed whether published or not. Likes and playlist entries that refer to it stay. */
  method DeleteVideo(db: Db, caller: Option<Id>, videoId: Id) returns (r: Result<()>)
    requires db.Valid()
    modifies db
    ensures db.Valid()
    ensures r.Err? ==> db.State() == old(db.State())
    ensures db.Malformed(videoId) ==> r == Err(BadRequest)
    ensures !db.Malformed(videoId) ==>
      var g := OwnerGuard(db.isValidObjectId, caller, videoId, old(db.videos));
      && (g.Err? ==> r == Err(g.code))
      && (g.Ok? ==> r == Ok(()) && db.State() == old(db.State()).(videos := RemoveAt(old(db.videos), g.value)))
  {
    if db.Malformed(videoId) {
      return Err(BadRequest);
    }
    var g := OwnerGuard(db.isValidObjectId, caller, videoId, db.videos);
    if g.Err? {
      return Err(g.code);
    }
    UniqueAfterRemove(db.videos, g.value);
    ConsistentWithVideos(db.State(), RemoveAt(db.videos, g.value));
    db.videos := RemoveAt(db.videos, g.value);
    r := Ok(());
  }

  /** togglePublishStatus: after the owner guard (401, 400, 404, 403) the video's published
      flag is negated and its new value returned; getVideoById then finds the video exactly
      when that value is true. */
  method TogglePublishStatus(db: Db, caller: Option<Id>, videoId: Id) returns (r: Result<bool>)
    requires db.Valid()
    modifies db
    ensures db.Valid()
    ensures r.Err? ==> db.State() == old(db.State())
    ensures var g := OwnerGuard(db.isValidObjectId, caller, videoId, old(db.videos));
      && (g.Err? ==> r == Err(g.code))
      && (g.Ok? ==>
            var v := old(db.videos)[g.value];
            && r == Ok(!v.fields.isPublished)
            && db.State() == old(db.State()).(videos := old(db.videos)[g.value := v.(fields := v.fields.(isPublished := r.value))]))
    ensures r.Ok? ==> (GetVideoById(db, videoId).Ok? <==> r.value)
  {
    var g := OwnerGuard(db.isValidObjectId, caller, videoId, db.videos);
    if g.Err? {
      return Err(g.code);
    }
    var v := db.videos[g.value];
    v := v.(fields := v.fields.(isPublished := !v.fields.isPublished));
    UniqueAfterReplace(db.videos, g.value, v);
    ConsistentWithVideos(db.State(), db.videos[g.value := v]);
    db.videos := db.videos[g.value := v];
    FindUnique(db.videos, g.value);
    r := Ok(v.fields.isPublished);
  }
}
