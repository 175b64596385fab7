/** The playlist handlers: create, list a user's playlists, fetch one, add and remove a video,
    delete and update a playlist. */
module PlaylistControllers {
  import opened Results
  import opened Text
  import opened Query
  import opened Edges
  import opened Documents
  import opened Store

  /** createPlaylist as written: `name` and `description` are `const` bindings that the handler
      reassigns after the authentication check, which throws a TypeError. So every authenticated
      request is answered with 500 and no playlist is ever created. */
  function CreatePlaylistAsWritten(caller: Option<Id>, name: string, description: string): (r: Result<Playlist>)
    ensures r.Err?
    ensures r.code == Unauthenticated <==> caller.None?
    ensures r.code in {Unauthenticated, ServerError}
  {
    if caller.None? then Err(Unauthenticated) else Err(ServerError)
  }

  /** The input that shows it: an authenticated caller with a non-blank name, which the corrected
      handler turns into a playlist, gets 500. */
  lemma CreatePlaylistRefusesValidName(user: Id, description: string)
    ensures Trim("mix") != ""
    ensures CreatePlaylistAsWritten(Some(user), "mix", description) == Err(ServerError)
  {
    TrimUnique([], "mix", []);
    assert [] + "mix" + [] == "mix";
  }

  /** createPlaylist as evidently intended: 401 without a caller, 400 when the name is empty once
      trimmed; otherwise a new, empty playlist of the caller with the trimmed name and
      description. */
  method CreatePlaylist(db: Db, caller: Option<Id>, name: string, description: string, newId: Id, now: nat)
    returns (r: Result<Playlist>)
    requires db.Valid()
    modifies db
    ensures db.Valid()
    ensures r.Err? ==> db.State() == old(db.State())
    ensures caller.None? ==> r == Err(Unauthenticated)
    ensures caller.Some? && Trim(name) == "" ==> r == Err(BadRequest)
    ensures caller.Some? && Trim(name) != "" ==> (r.Ok? <==> Find(old(db.playlists), newId).None?)
    ensures r.Ok? ==>
      && caller.Some?
      && r.value == Owned(newId, caller.value, now, PlaylistFields(Trim(name), Trim(description), []))
      && db.State() == old(db.State()).(playlists := old(db.playlists) + [r.value])
  {
    if caller.None? {
      return Err(Unauthenticated);
    }
    var trimmedName := Trim(name);
    var trimmedDescription := Trim(description);
    if trimmedName == "" {
      return Err(BadRequest);
    }
    if Find(db.playlists, newId).Some? {
      // the insert is refused with a duplicate-key error
      return Err(ServerError);
    }
    var playlist := Owned(newId, caller.value, now, PlaylistFields(trimmedName, trimmedDescription, []));
    UniqueAfterAppend(db.playlists, playlist);
    ListsAfterAppend(db.playlists, playlist);
    ConsistentWithPlaylists(db.State(), db.playlists + [playlist]);
    db.playlists := db.playlists + [playlist];
    r := Ok(playlist);
  }

  /** getUserPlaylists: 401, 400 for a missing or ill-formed user id; otherwise all playlists
      that user owns, in natural order (no existence check on the user, no paging). */
  function GetUserPlaylists(db: Db, caller: Option<Id>, userId: Id): (r: Result<seq<Playlist>>)
    reads db
    ensures caller.None? ==> r == Err(Unauthenticated)
    ensures caller.Some? && db.Malformed(userId) ==> r == Err(BadRequest)
    ensures caller.Some? && !db.Malformed(userId) ==> r.Ok?
    ensures r.Ok? ==> forall p :: p in r.value <==> p in db.playlists && p.owner == userId
  {
    if caller.None? then Err(Unauthenticated)
    else if db.Malformed(userId) then Err(BadRequest)
    else Ok(Filter(db.playlists, (p: Playlist) => p.owner == userId))
  }

  /** getPlaylistById: 401, 400, 404 when no playlist has the id; any authenticated user may
      read any playlist. */
  function GetPlaylistById(db: Db, caller: Option<Id>, playlistId: Id): (r: Result<Playlist>)
    reads db
    ensures caller.None? ==> r == Err(Unauthenticated)
    ensures caller.Some? && db.Malformed(playlistId) ==> r == Err(BadRequest)
    ensures caller.Some? && !db.Malformed(playlistId) ==>
      (r == Err(NotFound) <==> forall p :: p in db.playlists ==> p.id != playlistId)
    ensures r.Ok? ==> r.value in db.playlists && r.value.id == playlistId
  {
    if caller.None? then Err(Unauthenticated)
    else if db.Malformed(playlistId) then Err(BadRequest)
    else match Lookup(db.playlists, playlistId)
      case None => Err(NotFound)
      case Some(p) => Ok(p)
  }

  /** The owner guard of the two handlers that take a playlist id and a video id: 401, then 400
      when either id is missing or ill-formed, then 404 and 403 on the playlist. */
  function PlaylistVideoGuard(db: Db, caller: Option<Id>, playlistId: Id, videoId: Id): (r: Result<nat>)
    reads db
    ensures caller.None? ==> r == Err(Unauthenticated)
    ensures caller.Some? && db.Malformed(videoId) ==> r == Err(BadRequest)
    ensures caller.Some? && !db.Malformed(videoId) ==>
      r == OwnerGuard(db.isValidObjectId, caller, playlistId, db.playlists)
  {
    if caller.None? then Err(Unauthenticated)
    else if db.Malformed(videoId) then Err(BadRequest)
    else OwnerGuard(db.isValidObjectId, caller, playlistId, db.playlists)
  }

  /** The playlist with its list of video ids replaced. */
  function WithVideos(p: Playlist, videos: seq<Id>): (r: Playlist)
    ensures r.id == p.id && r.owner == p.owner && r.createdAt == p.createdAt
    ensures r.fields.name == p.fields.name && r.fields.description == p.fields.description
    ensures r.fields.videos == videos
  {
    p.(fields := p.fields.(videos := videos))
  }

  /** addVideoToPlaylist: after the guard, 400 when the video is already listed; otherwise the
      video id is appended. Whether a video with that id exists is not checked. */
  method AddVideoToPlaylist(db: Db, caller: Option<Id>, playlistId: Id, videoId: Id) returns (r: Result<Playlist>)
    requires db.Valid()
    modifies db
    ensures db.Valid()
    ensures r.Err? ==> db.State() == old(db.State())
    ensures var g := old(PlaylistVideoGuard(db, caller, playlistId, videoId));
      && (g.Err? ==> r == Err(g.code))
      && (g.Ok? && videoId in old(db.playlists)[g.value].fields.videos ==> r == Err(BadRequest))
      && (g.Ok? && videoId !in old(db.playlists)[g.value].fields.videos ==>
            var p := old(db.playlists)[g.value];
            && r == Ok(WithVideos(p, p.fields.videos + [videoId]))
            && db.State() == old(db.State()).(playlists := old(db.playlists)[g.value := r.value]))
  {
    var g := PlaylistVideoGuard(db, caller, playlistId, videoId);
    if g.Err? {
      return Err(g.code);
    }
    var p := db.playlists[g.value];
    if videoId in p.fields.videos {
      return Err(BadRequest);
    }
    p := WithVideos(p, p.fields.videos + [videoId]);
    UniqueAfterReplace(db.playlists, g.value, p);
    ListsAfterReplace(db.playlists, g.value, p);
    ConsistentWithPlaylists(db.State(), db.playlists[g.value := p]);
    db.playlists := db.playlists[g.value := p];
    r := Ok(p);
  }

  /** `videos.filter(vid => vid.toString() !== videoId)`: every occurrence of `v` dropped, the
      rest in order. */
  function Without(s: seq<Id>, v: Id): (r: seq<Id>)
    ensures |r| <= |s|
  {
    if s == [] then []
    else (if s[0] == v then [] else [s[0]]) + Without(s[1..], v)
  }

  /** Every occurrence of `v` is dropped and every other entry is kept as often as it was listed. */
  lemma {:induction false} WithoutMultiset(s: seq<Id>, v: Id)
    ensures forall x :: multiset(Without(s, v))[x] == if x == v then 0 else multiset(s)[x]
  {
    if s != [] {
      WithoutMultiset(s[1..], v);
      assert s == [s[0]] + s[1..];
    }
  }

  /** The filter keeps the order: filtering a concatenation filters each part in place. */
  lemma {:induction false} WithoutAppend(a: seq<Id>, b: seq<Id>, v: Id)
    ensures Without(a + b, v) == Without(a, v) + Without(b, v)
  {
    if a == [] {
      assert a + b == b;
    } else {
      assert (a + b)[0] == a[0] && (a + b)[1..] == a[1..] + b;
      WithoutAppend(a[1..], b, v);
    }
  }

  /** A list that does not hold `v` passes the filter unchanged. */
  lemma {:induction false} WithoutAbsent(s: seq<Id>, v: Id)
    requires v !in s
    ensures Without(s, v) == s
  {
    if s != [] {
      WithoutAbsent(s[1..], v);
      assert s == [s[0]] + s[1..];
    }
  }

  /** Dropping the one entry of `v` from a list that holds it once leaves what came before it
      followed by what came after it. */
  lemma WithoutAround(a: seq<Id>, v: Id, b: seq<Id>)
    requires v !in a && v !in b
    ensures Without(a + [v] + b, v) == a + b
  {
    calc {
      Without(a + [v] + b, v);
      { WithoutAppend(a + [v], b, v); }
      Without(a + [v], v) + Without(b, v);
      { WithoutAppend(a, [v], v); }
      Without(a, v) + Without([v], v) + Without(b, v);
      { assert [v][1..] == []; assert Without([v], v) == []; }
      Without(a, v) + Without(b, v);
      { WithoutAbsent(a, v); WithoutAbsent(b, v); }
      a + b;
    }
  }

  /** In a list without repeats, dropping a listed video removes exactly its one entry and keeps
      every other entry in its place: the list before it, then the list after it. */
  lemma WithoutListed(s: seq<Id>, i: nat)
    requires NoDup(s) && i < |s|
    ensures Without(s, s[i]) == s[..i] + s[i + 1..]
  {
    var v, a, b := s[i], s[..i], s[i + 1..];
    assert v !in a by {
      forall j | 0 <= j < |a| ensures a[j] != v {
        assert a[j] == s[j];
      }
    }
    assert v !in b by {
      forall j | 0 <= j < |b| ensures b[j] != v {
        assert b[j] == s[i + 1 + j];
      }
    }
    assert s == a + [v] + b;
    WithoutAround(a, v, b);
  }

  /** Removing a video that was just appended gives back the list as it was. */
  lemma {:induction false} AddThenRemove(s: seq<Id>, v: Id)
    requires v !in s
    ensures Without(s + [v], v) == s
  {
    if s == [] {
      assert [] + [v] == [v];
    } else {
      assert (s + [v])[1..] == s[1..] + [v];
      AddThenRemove(s[1..], v);
    }
  }

  /** removeVideoFromPlaylist: after the guard, 400 when the video is not listed; otherwise its
      one entry is dropped and the other entries keep their order. */
  method RemoveVideoFromPlaylist(db: Db, caller: Option<Id>, playlistId: Id, videoId: Id) returns (r: Result<Playlist>)
    requires db.Valid()
    modifies db
    ensures db.Valid()
    ensures r.Err? ==> db.State() == old(db.State())
    ensures var g := old(PlaylistVideoGuard(db, caller, playlistId, videoId));
      && (g.Err? ==> r == Err(g.code))
      && (g.Ok? && videoId !in old(db.playlists)[g.value].fields.videos ==> r == Err(BadRequest))
      && (g.Ok? && videoId in old(db.playlists)[g.value].fields.videos ==>
            var p := old(db.playlists)[g.value];
            && r == Ok(WithVideos(p, Without(p.fields.videos, videoId)))
            && (forall i :: 0 <= i < |p.fields.videos| && p.fields.videos[i] == videoId ==>
                  r.value.fields.videos == p.fields.videos[..i] + p.fields.videos[i + 1..])
            && db.State() == old(db.State()).(playlists := old(db.playlists)[g.value := r.value]))
  {
    var g := PlaylistVideoGuard(db, caller, playlistId, videoId);
    if g.Err? {
      return Err(g.code);
    }
    var p := db.playlists[g.value];
    if videoId !in p.fields.videos {
      return Err(BadRequest);
    }
    var rest := Without(p.fields.videos, videoId);
    assert NoDup(p.fields.videos);
    forall i | 0 <= i < |p.fields.videos| && p.fields.videos[i] == videoId
      ensures rest == p.fields.videos[..i] + p.fields.videos[i + 1..]
    {
      WithoutListed(p.fields.videos, i);
    }
    WithoutMultiset(p.fields.videos, videoId);
    NoDupMultiset(p.fields.videos);
    NoDupMultiset(rest);
    p := WithVideos(p, rest);
    UniqueAfterReplace(db.playlists, g.value, p);
    ListsAfterReplace(db.playlists, g.value, p);
    ConsistentWithPlaylists(db.State(), db.playlists[g.value := p]);
    db.playlists := db.playlists[g.value := p];
    r := Ok(p);
  }

  /** deletePlaylist: after the owner guard (401, 400, 404, 403) the playlist is removed. */
  method DeletePlaylist(db: Db, caller: Option<Id>, playlistId: Id) returns (r: Result<()>)
    requires db.Valid()
    modifies db
    ensures db.Valid()
    ensures r.Err? ==> db.State() == old(db.State())
    ensures var g := OwnerGuard(db.isValidObjectId, caller, playlistId, old(db.playlists));
      && (g.Err? ==> r == Err(g.code))
      && (g.Ok? ==> r == Ok(()) && db.State() == old(db.State()).(playlists := RemoveAt(old(db.playlists), g.value)))
  {
    var g := OwnerGuard(db.isValidObjectId, caller, playlistId, db.playlists);
    if g.Err? {
      return Err(g.code);
    }
    UniqueAfterRemove(db.playlists, g.value);
    ListsAfterRemove(db.playlists, g.value);
    ConsistentWithPlaylists(db.State(), RemoveAt(db.playlists, g.value));
    db.playlists := RemoveAt(db.playlists, g.value);
    r := Ok(());
  }

  /** The playlist after `if (name) playlist.name = name; if (description) ...`. */
  function Renamed(p: Playlist, name: string, description: string): (r: Playlist)
    ensures r.id == p.id && r.owner == p.owner && r.createdAt == p.createdAt
    ensures r.fields.videos == p.fields.videos
    ensures r.fields.name == (if name != "" then name else p.fields.name)
    ensures r.fields.description == (if description != "" then description else p.fields.description)
  {
    var p := if name != "" then p.(fields := p.fields.(name := name)) else p;
    if description != "" then p.(fields := p.fields.(description := description)) else p
  }

  /** updatePlaylist: 401, 400 for a bad id, 400 when both name and description are empty once
      trimmed (checked before the lookup), 404, 403; then each non-empty trimmed field replaces
      the stored one. */
  method UpdatePlaylist(db: Db, caller: Option<Id>, playlistId: Id, name: string, description: string)
    returns (r: Result<Playlist>)
    requires db.Valid()
    modifies db
    ensures db.Valid()
    ensures r.Err? ==> db.State() == old(db.State())
    ensures var g := OwnerGuard(db.isValidObjectId, caller, playlistId, old(db.playlists));
      && (g.Err? && (g.code in {Unauthenticated, BadRequest} || Trim(name) != "" || Trim(description) != "") ==>
            r == Err(g.code))
      && (caller.Some? && !db.Malformed(playlistId) && Trim(name) == "" && Trim(description) == "" ==>
            r == Err(BadRequest))
      && (g.Ok? && (Trim(name) != "" || Trim(description) != "") ==>
            && r == Ok(Renamed(old(db.playlists)[g.value], Trim(name), Trim(description)))
            && db.State() == old(db.State()).(playlists := old(db.playlists)[g.value := r.value]))
  {
    if caller.None? {
      return Err(Unauthenticated);
    }
    if db.Malformed(playlistId) {
      return Err(BadRequest);
    }
    var trimmedName := Trim(name);
    var trimmedDescription := Trim(description);
    if trimmedName == "" && trimmedDescription == "" {
      return Err(BadRequest);
    }
    var g := OwnerGuard(db.isValidObjectId, caller, playlistId, db.playlists);
    if g.Err? {
      return Err(g.code);
    }
    var p := Renamed(db.playlists[g.value], trimmedName, trimmedDescription);
    UniqueAfterReplace(db.playlists, g.value, p);
    ListsAfterReplace(db.playlists, g.value, p);
    ConsistentWithPlaylists(db.State(), db.playlists[g.value := p]);
    db.playlists := db.playlists[g.value := p];
    r := Ok(p);
  }
}
