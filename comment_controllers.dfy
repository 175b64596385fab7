/** The comment handlers: list a video's comments, add, update and delete a comment. */
module CommentControllers {
  import opened Results
  import opened Text
  import opened Query
  import opened Documents
  import opened Store

  /** `Comment.find({ video })`: the comments on a video, in natural order. */
  function CommentsOn(comments: seq<Comment>, videoId: Id): (r: seq<Comment>)
    ensures forall c :: c in r <==> c in comments && c.fields.video == videoId
  {
    Filter(comments, (c: Comment) => c.fields.video == videoId)
  }

  /** getVideoComments (no authentication): 400 for a missing or ill-formed id, 404 when the
      video does not exist, otherwise one page of its comments, newest first. */
  function GetVideoComments(db: Db, videoId: Id, page: int, limit: int): (r: Result<seq<Comment>>)
    reads db
    ensures db.Malformed(videoId) ==> r == Err(BadRequest)
    ensures !db.Malformed(videoId) && Find(db.videos, videoId).None? ==> r == Err(NotFound)
    ensures !db.Malformed(videoId) && Find(db.videos, videoId).Some? ==> (r.Ok? <==> (page - 1) * limit >= 0)
    ensures r.Ok? ==> forall c :: c in r.value ==> c in db.comments && c.fields.video == videoId
    ensures r.Ok? ==> forall i, j :: 0 <= i < j < |r.value| ==> r.value[j].createdAt <= r.value[i].createdAt
    ensures r.Ok? && limit != 0 ==> |r.value| <= Abs(limit)
    ensures r.Ok? ==> r.value == Window(NewestFirst(CommentsOn(db.comments, videoId)), (page - 1) * limit, limit)
  {
    if db.Malformed(videoId) then Err(BadRequest)
    else if Find(db.videos, videoId).None? then Err(NotFound)
    else NewestPage(CommentsOn(db.comments, videoId), page, limit)
  }

  /** Paging through a video's comments neither skips nor repeats one: page `k` (from 1) of
      size `limit` holds the newest-first comments from where page `k - 1` ends to where page
      `k` ends. */
  lemma CommentPageSlice(db: Db, videoId: Id, k: nat, limit: nat)
    requires k >= 1 && limit >= 1 && !db.Malformed(videoId) && Find(db.videos, videoId).Some?
    ensures var all := NewestFirst(CommentsOn(db.comments, videoId));
      var r := GetVideoComments(db, videoId, k, limit);
      && PagesEnd(k - 1, limit, |all|) <= PagesEnd(k, limit, |all|)
      && r.Ok? && r.value == all[PagesEnd(k - 1, limit, |all|)..PagesEnd(k, limit, |all|)]
  {
    PageIsSlice(NewestFirst(CommentsOn(db.comments, videoId)), k, limit);
  }

  /** addComment: 401 without a caller, 400 for a bad video id or a content that is empty once
      trimmed, 404 when the video does not exist; otherwise the trimmed content is stored as a
      new comment of the caller on that video. */
  method AddComment(db: Db, caller: Option<Id>, videoId: Id, content: string, newId: Id, now: nat)
    returns (r: Result<Comment>)
    requires db.Valid()
    modifies db
    ensures db.Valid()
    ensures r.Err? ==> db.State() == old(db.State())
    ensures caller.None? ==> r == Err(Unauthenticated)
    ensures caller.Some? && db.Malformed(videoId) ==> r == Err(BadRequest)
    ensures caller.Some? && !db.Malformed(videoId) && Trim(content) == "" ==> r == Err(BadRequest)
    ensures caller.Some? && !db.Malformed(videoId) && Trim(content) != "" && Find(old(db.videos), videoId).None?
      ==> r == Err(NotFound)
    ensures caller.Some? && !db.Malformed(videoId) && Trim(content) != "" && Find(old(db.videos), videoId).Some?
      ==> (r.Ok? <==> Find(old(db.comments), newId).None?)
    ensures r.Ok? ==>
      && caller.Some?
      && r.value == Owned(newId, caller.value, now, CommentFields(Trim(content), videoId))
      && db.State() == old(db.State()).(comments := old(db.comments) + [r.value])
  {
    if caller.None? {
      return Err(Unauthenticated);
    }
    if db.Malformed(videoId) {
      return Err(BadRequest);
    }
    var text := Trim(content);
    if text == "" {
      return Err(BadRequest);
    }
    if Find(db.videos, videoId).None? {
      return Err(NotFound);
    }
    if Find(db.comments, newId).Some? {
      // the insert is refused with a duplicate-key error
      return Err(ServerError);
    }
    var comment := Owned(newId, caller.value, now, CommentFields(text, videoId));
    UniqueAfterAppend(db.comments, comment);
    ConsistentWithComments(db.State(), db.comments + [comment]);
    db.comments := db.comments + [comment];
    r := Ok(comment);
  }

  /** updateComment: the owner guard (401, 400, 404, 403) runs before the new content is
      checked (400 when empty once trimmed); only the comment's content changes. */
  method UpdateComment(db: Db, caller: Option<Id>, commentId: Id, newComment: string)
    returns (r: Result<Comment>)
    requires db.Valid()
    modifies db
    ensures db.Valid()
    ensures r.Err? ==> db.State() == old(db.State())
    ensures var g := OwnerGuard(db.isValidObjectId, caller, commentId, old(db.comments));
      && (g.Err? ==> r == Err(g.code))
      && (g.Ok? && Trim(newComment) == "" ==> r == Err(BadRequest))
      && (g.Ok? && Trim(newComment) != "" ==>
            var c := old(db.comments)[g.value];
            && r == Ok(c.(fields := c.fields.(content := Trim(newComment))))
            && db.State() == old(db.State()).(comments := old(db.comments)[g.value := r.value]))
  {
    var g := OwnerGuard(db.isValidObjectId, caller, commentId, db.comments);
    if g.Err? {
      return Err(g.code);
    }
    var text := Trim(newComment);
    if text == "" {
      return Err(BadRequest);
    }
    var comment := db.comments[g.value];
    comment := comment.(fields := comment.fields.(content := text));
    UniqueAfterReplace(db.comments, g.value, comment);
    ConsistentWithComments(db.State(), db.comments[g.value := comment]);
    db.comments := db.comments[g.value := comment];
    r := Ok(comment);
  }

  /** deleteComment: after the owner guard (401, 400, 404, 403) the comment is removed; likes
      on it are left in place. */
  method DeleteComment(db: Db, caller: Option<Id>, commentId: Id) returns (r: Result<()>)
    requires db.Valid()
    modifies db
    ensures db.Valid()
    ensures r.Err? ==> db.State() == old(db.State())
    ensures var g := OwnerGuard(db.isValidObjectId, caller, commentId, old(db.comments));
      && (g.Err? ==> r == Err(g.code))
      && (g.Ok? ==> r == Ok(()) && db.State() == old(db.State()).(comments := RemoveAt(old(db.comments), g.value)))
  {
    var g := OwnerGuard(db.isValidObjectId, caller, commentId, db.comments);
    if g.Err? {
      return Err(g.code);
    }
    UniqueAfterRemove(db.comments, g.value);
    ConsistentWithComments(db.State(), RemoveAt(db.comments, g.value));
    db.comments := RemoveAt(db.comments, g.value);
    r := Ok(());
  }

  /** Whitespace-only content is refused and " hello " is stored as "hello". */
  lemma TrimScenario()
    ensures Trim("   ") == ""
    ensures Trim(" hello ") == "hello"
  {
    assert " hello " == " " + "hello" + " ";
    TrimUnique(" ", "hello", " ");
    TrimEmptyIffAllSpace("   ");
  }
}
