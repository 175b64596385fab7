/** The Video document: its fields, which of them the schema requires, and the defaults
    a newly created video gets. */
module VideoModel {
  import opened Results
  import opened Documents

  /** The fields of a Video besides id, owner and timestamps. The schema declares `owner` as a
      String and `title` as an ObjectId referencing User, which looks swapped: the handlers
      put the caller's user id in `owner` and the request's text in `title`, and so does this
      model (owner is the `Owned.owner` user id, title is text). */
  datatype VideoFields = VideoFields(
    videoFile: string,
    thumbnail: string,
    title: string,
    description: string,
    duration: real,
    views: nat,
    isPublished: bool)

  type Video = Owned<VideoFields>

  /** What `Video.create` is given; an empty string stands for a field left out. */
  datatype VideoInput = VideoInput(
    videoFile: string,
    thumbnail: string,
    owner: Id,
    title: string,
    description: string,
    duration: Option<real>)

  /** The schema's required fields: videoFile, thumbnail, owner and description must be
      non-empty strings and duration must be present. */
  predicate HasRequiredFields(input: VideoInput) {
    input.videoFile != "" && input.thumbnail != "" && input.owner != ""
    && input.description != "" && input.duration.Some?
  }

  /** `Video.create`: validation fails (a ValidationError, answered with 500) when a required
      field is missing; otherwise a document whose views start at 0 and which is published. */
  function CreateVideo(input: VideoInput, id: Id, now: nat): (r: Result<Video>)
    ensures r.Ok? <==> HasRequiredFields(input)
    ensures r.Err? ==> r.code == ServerError
    ensures r.Ok? ==> r.value.id == id && r.value.owner == input.owner && r.value.createdAt == now
    ensures r.Ok? ==> r.value.fields.videoFile == input.videoFile && r.value.fields.thumbnail == input.thumbnail
    ensures r.Ok? ==> r.value.fields.title == input.title && r.value.fields.description == input.description
    ensures r.Ok? ==> Some(r.value.fields.duration) == input.duration
    ensures r.Ok? ==> r.value.fields.views == 0 && r.value.fields.isPublished
  {
    if !HasRequiredFields(input) then Err(ServerError)
    else Ok(Owned(id, input.owner, now, VideoFields(
      input.videoFile, input.thumbnail, input.title, input.description, input.duration.value, 0, true)))
  }

  /** `Video.create` as written: the schema types `title` as an ObjectId, so a title that does
      not cast to one fails validation (a CastError, answered with 500) even when every
      required field is there. */
  function CreateVideoAsWritten(isValidObjectId: Id -> bool, input: VideoInput, id: Id, now: nat): (r: Result<Video>)
    ensures r.Ok? <==> HasRequiredFields(input) && (input.title == "" || isValidObjectId(input.title))
    ensures r.Err? ==> r.code == ServerError
    ensures r.Ok? ==> r == CreateVideo(input, id, now)
  {
    if input.title != "" && !isValidObjectId(input.title) then Err(ServerError)
    else CreateVideo(input, id, now)
  }

  /** The input that shows it: a complete video whose title is ordinary text, which the
      corrected schema stores, is refused as written. */
  lemma TextTitleRefusedAsWritten(isValidObjectId: Id -> bool, input: VideoInput, id: Id, now: nat)
    requires HasRequiredFields(input) && input.title != "" && !isValidObjectId(input.title)
    ensures CreateVideoAsWritten(isValidObjectId, input, id, now) == Err(ServerError)
    ensures CreateVideo(input, id, now).Ok?
  {
  }
}
