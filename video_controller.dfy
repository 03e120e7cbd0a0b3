/** The `/videos` handlers: `videoPost`, `videoGet`, `videoPatch`, `videoDelete`. */
module VideoController {
  import opened Collections
  import opened Records
  import opened Http
  import opened Text
  import opened Authorization
  import opened Database

  /** The fields of a request body for `POST` and `PATCH /videos`. `None`
      stands for a field that is absent, and for `playlistId` also for an
      empty one, since the handlers test it for truthiness. A JSON `null`
      description, which `PATCH` stores as given, is not representable. */
  datatype VideoBody = VideoBody(
    name: Option<string>,
    youtubeUrl: Option<string>,
    description: Option<string>,
    playlistId: Option<Id>)

  /** The query parameters of `GET /videos`; `None` stands for an absent or
      empty parameter. */
  datatype VideoQuery = VideoQuery(id: Option<Id>, playlistId: Option<Id>, search: Option<string>)

  /** A refusal with its status, or status 200 with one video or a list. */
  datatype VideoReply = Refused(status: int) | One(video: Video) | Many(videos: seq<Video>)

  // ---------------------------------------------------------------------------
  // The queries of videoGet.

  /** `Video.find({ adminId: admin })`. */
  function OwnedVideos(videos: seq<Video>, admin: Id): (r: seq<Video>)
    ensures forall v :: v in r <==> v in videos && v.adminId == admin
  {
    Filter(videos, (v: Video) => v.adminId == admin)
  }

  /** `Video.find({ playlistId: playlist })`. */
  function VideosOfPlaylist(videos: seq<Video>, playlist: Id): (r: seq<Video>)
    ensures forall v :: v in r <==> v in videos && v.playlistId == playlist
  {
    Filter(videos, InPlaylist(playlist))
  }

  /** The videos of every playlist whose `associatedProfiles` lists `rid`
      (the ids of those playlists, then `Video.find({ playlistId: { $in: ids } })`). */
  function SharedVideos(videos: seq<Video>, playlists: seq<Playlist>, rid: Id): (r: seq<Video>)
    ensures forall v :: v in r <==> v in videos && SharedWith(playlists, rid, v.playlistId)
  {
    var ids := set pl | pl in playlists && rid in pl.associatedProfiles :: pl.id;
    Filter(videos, (v: Video) => v.playlistId in ids)
  }

  /** The `$or` of the search: the name or the description matches. */
  function MatchesSearch(v: Video, query: string): (r: bool)
    ensures Matches(v.name, query) ==> r
    ensures Matches(v.description, query) ==> r
    ensures r ==> Matches(v.name, query) || Matches(v.description, query)
    ensures query == [] ==> r
    ensures r ==> |query| <= |v.name| || |query| <= |v.description|
  {
    Matches(v.name, query) || Matches(v.description, query)
  }

  function Searched(videos: seq<Video>, query: string): (r: seq<Video>)
    ensures forall v :: v in r <==> v in videos && MatchesSearch(v, query)
  {
    Filter(videos, (v: Video) => MatchesSearch(v, query))
  }

  /** `GET /videos`: the branches are tried in the order id, playlistId,
      search, no parameter. */
  function VideoGet(videos: seq<Video>, playlists: seq<Playlist>, p: Principal, q: VideoQuery): (r: VideoReply)
    ensures r.Refused? ==> r.status in {UNAUTHORIZED, FORBIDDEN, NOT_FOUND}
    // By id: a missing video, then a missing playlist, give 404, both before
    // any 403; the video is returned iff the principal may view it.
    ensures q.id.Some? ==>
      match VideoIndex(videos, q.id.value)
      case None => r == Refused(NOT_FOUND)
      case Some(i) =>
        match PlaylistIndex(playlists, videos[i].playlistId)
        case None => r == Refused(NOT_FOUND)
        case Some(j) =>
          && (r == One(videos[i]) <==> CanViewVideo(p, videos[i], playlists[j]))
          && (r != One(videos[i]) ==> r == Refused(FORBIDDEN))
    // By playlist: 404 for an unknown playlist, 403 unless the principal may
    // view it, else exactly the videos of that playlist.
    ensures q.id.None? && q.playlistId.Some? ==>
      match PlaylistIndex(playlists, q.playlistId.value)
      case None => r == Refused(NOT_FOUND)
      case Some(j) =>
        && (r.Many? <==> CanViewPlaylist(p, playlists[j]))
        && (!r.Many? ==> r == Refused(FORBIDDEN))
        && (r.Many? ==> forall v :: v in r.videos <==> v in videos && v.playlistId == q.playlistId.value)
    // Search: the restricted profile first, then the admin, else 401.
    ensures q.id.None? && q.playlistId.None? && Truthy(q.search) ==>
      if p.restrictedUserId.Some? then
        r.Many? && forall v :: v in r.videos <==>
          v in videos && MatchesSearch(v, q.search.value)
          && SharedWith(playlists, p.restrictedUserId.value, v.playlistId)
      else if p.user.Some? then
        r.Many? && forall v :: v in r.videos <==>
          v in videos && MatchesSearch(v, q.search.value) && v.adminId == p.user.value
      else
        r == Refused(UNAUTHORIZED)
    // No parameter: the admin first, then the restricted profile, else 401.
    ensures q.id.None? && q.playlistId.None? && !Truthy(q.search) ==>
      if p.user.Some? then
        r.Many? && forall v :: v in r.videos <==> v in videos && v.adminId == p.user.value
      else if p.restrictedUserId.Some? then
        r.Many? && forall v :: v in r.videos <==>
          v in videos && SharedWith(playlists, p.restrictedUserId.value, v.playlistId)
      else
        r == Refused(UNAUTHORIZED)
  {
    if q.id.Some? then
      match VideoIndex(videos, q.id.value)
      case None => Refused(NOT_FOUND)
      case Some(i) =>
        match PlaylistIndex(playlists, videos[i].playlistId)
        case None => Refused(NOT_FOUND)
        case Some(j) =>
          if CanViewVideo(p, videos[i], playlists[j]) then One(videos[i]) else Refused(FORBIDDEN)
    else if q.playlistId.Some? then
      match PlaylistIndex(playlists, q.playlistId.value)
      case None => Refused(NOT_FOUND)
      case Some(j) =>
        if CanViewPlaylist(p, playlists[j]) then Many(VideosOfPlaylist(videos, q.playlistId.value))
        else Refused(FORBIDDEN)
    else if Truthy(q.search) then
      if p.restrictedUserId.Some? then
        Many(Searched(SharedVideos(videos, playlists, p.restrictedUserId.value), q.search.value))
      else if p.user.Some? then
        Many(Searched(OwnedVideos(videos, p.user.value), q.search.value))
      else
        Refused(UNAUTHORIZED)
    else
      if p.user.Some? then Many(OwnedVideos(videos, p.user.value))
      else if p.restrictedUserId.Some? then Many(SharedVideos(videos, playlists, p.restrictedUserId.value))
      else Refused(UNAUTHORIZED)
  }

  /** On a consistent store, whatever `GET /videos` lists or returns is a
      video the principal can view through its own playlist. */
  lemma VideoGetShowsOnlyVisible(db: Store, p: Principal, q: VideoQuery, v: Video)
    requires db.Valid()
    requires var r := VideoGet(db.videos, db.playlists, p, q);
      (r.One? && v == r.video) || (r.Many? && v in r.videos)
    ensures v in db.videos
    ensures exists pl :: pl in db.playlists && pl.id == v.playlistId && CanViewPlaylist(p, pl)
  {
    var r := VideoGet(db.videos, db.playlists, p, q);
    var pl :| pl in db.playlists && pl.id == v.playlistId && pl.adminId == v.adminId;
    if q.id.Some? {
      var i := VideoIndex(db.videos, q.id.value).value;
      var j := PlaylistIndex(db.playlists, db.videos[i].playlistId).value;
      assert CanViewPlaylist(p, db.playlists[j]);
    } else if q.playlistId.Some? {
      var j := PlaylistIndex(db.playlists, q.playlistId.value).value;
      assert CanViewPlaylist(p, db.playlists[j]);
    } else if Truthy(q.search) && p.restrictedUserId.Some? {
      var rid := p.restrictedUserId.value;
      var s :| s in db.playlists && s.id == v.playlistId && rid in s.associatedProfiles;
      assert CanViewPlaylist(p, s);
    } else if Truthy(q.search) || p.user.Some? {
      assert CanViewPlaylist(p, pl);
    } else {
      var rid := p.restrictedUserId.value;
      var s :| s in db.playlists && s.id == v.playlistId && rid in s.associatedProfiles;
      assert CanViewPlaylist(p, s);
    }
  }

  // ---------------------------------------------------------------------------
  // The writes.

  /** `POST /videos`: checks 401, 422 (no playlist id), 404, 403, then 422
      (no name or URL), and only then inserts the video. */
  method VideoPost(db: Store, p: Principal, body: VideoBody, newId: Id) returns (status: int, saved: Option<Video>)
    requires db.Valid()
    requires KeyFree(db.videos, VideoKey, newId)
    modifies db
    ensures db.Valid()
    ensures db.users == old(db.users) && db.profiles == old(db.profiles) && db.playlists == old(db.playlists)
    ensures status == (
      if p.user.None? then UNAUTHORIZED
      else if body.playlistId.None? then UNPROCESSABLE
      else
        match PlaylistIndex(db.playlists, body.playlistId.value)
        case None => NOT_FOUND
        case Some(j) =>
          if !CanManage(p, db.playlists[j].adminId) then FORBIDDEN
          else if !Truthy(body.name) || !Truthy(body.youtubeUrl) then UNPROCESSABLE
          else CREATED)
    ensures saved.Some? <==> status == CREATED
    ensures saved.Some? ==> saved.value == Video(
      newId, body.name.value, body.youtubeUrl.value,
      if Truthy(body.description) then body.description.value else "",
      body.playlistId.value, p.user.value)
    ensures saved.Some? ==>
      exists pl :: pl in db.playlists && pl.id == saved.value.playlistId && pl.adminId == saved.value.adminId
    ensures db.videos == old(db.videos) + if saved.Some? then [saved.value] else []
  {
    if p.user.None? {
      return UNAUTHORIZED, None;
    }
    if body.playlistId.None? {
      return UNPROCESSABLE, None;
    }
    var found := PlaylistIndex(db.playlists, body.playlistId.value);
    if found.None? {
      return NOT_FOUND, None;
    }
    var playlist := db.playlists[found.value];
    if !CanManage(p, playlist.adminId) {
      return FORBIDDEN, None;
    }
    var video := Video(
      newId,
      if body.name.Some? then body.name.value else "",
      if body.youtubeUrl.Some? then body.youtubeUrl.value else "",
      if Truthy(body.description) then body.description.value else "",
      body.playlistId.value,
      p.user.value);
    if video.name == "" || video.youtubeUrl == "" {
      return UNPROCESSABLE, None;
    }
    AppendKeepsDistinctKeys(db.videos, video, VideoKey);
    db.videos := db.videos + [video];
    return CREATED, Some(video);
  }

  /** `PATCH /videos?id=`: checks 401, 400, 404, 403; overwrites the name and
      the URL when given non-empty, the description when given at all; a new
      playlist must exist (404) and belong to the caller (403). The record is
      saved only at the end, so every refusal leaves it as it was. */
  method VideoPatch(db: Store, p: Principal, id: Option<Id>, body: VideoBody) returns (status: int)
    requires db.Valid()
    modifies db
    ensures db.Valid()
    ensures db.users == old(db.users) && db.profiles == old(db.profiles) && db.playlists == old(db.playlists)
    ensures status == (
      if p.user.None? then UNAUTHORIZED
      else if id.None? then BAD_REQUEST
      else
        match VideoIndex(old(db.videos), id.value)
        case None => NOT_FOUND
        case Some(i) =>
          if !CanManage(p, old(db.videos)[i].adminId) then FORBIDDEN
          else if body.playlistId.None? then OK
          else
            match PlaylistIndex(db.playlists, body.playlistId.value)
            case None => NOT_FOUND
            case Some(j) => if !CanManage(p, db.playlists[j].adminId) then FORBIDDEN else OK)
    ensures status != OK ==> db.videos == old(db.videos)
    ensures |db.videos| == |old(db.videos)|
    ensures status == OK ==>
      var i := VideoIndex(old(db.videos), id.value).value;
      var before, after := old(db.videos)[i], db.videos[i];
      && (forall k :: 0 <= k < |db.videos| && k != i ==> db.videos[k] == old(db.videos)[k])
      && after.id == before.id
      && after.adminId == before.adminId
      && after.name == (if Truthy(body.name) then body.name.value else before.name)
      && after.youtubeUrl == (if Truthy(body.youtubeUrl) then body.youtubeUrl.value else before.youtubeUrl)
      && after.description == (if body.description.Some? then body.description.value else before.description)
      && after.playlistId == (if body.playlistId.Some? then body.playlistId.value else before.playlistId)
  {
    if p.user.None? {
      return UNAUTHORIZED;
    }
    if id.None? {
      return BAD_REQUEST;
    }
    var found := VideoIndex(db.videos, id.value);
    if found.None? {
      return NOT_FOUND;
    }
    var i := found.value;
    var video := db.videos[i];
    if !CanManage(p, video.adminId) {
      return FORBIDDEN;
    }
    if Truthy(body.name) {
      video := video.(name := body.name.value);
    }
    if Truthy(body.youtubeUrl) {
      video := video.(youtubeUrl := body.youtubeUrl.value);
    }
    if body.description.Some? {
      video := video.(description := body.description.value);
    }
    if body.playlistId.Some? {
      var target := PlaylistIndex(db.playlists, body.playlistId.value);
      if target.None? {
        return NOT_FOUND;
      }
      if !CanManage(p, db.playlists[target.value].adminId) {
        return FORBIDDEN;
      }
      video := video.(playlistId := body.playlistId.value);
    }
    assert exists pl :: pl in db.playlists && pl.id == video.playlistId && pl.adminId == video.adminId;
    UpdateKeepsDistinctKeys(db.videos, i, video, VideoKey);
    db.videos := db.videos[i := video];
    return OK;
  }

  /** `DELETE /videos?id=`: checks 401, 400, 404, 403, then removes exactly
      that video. */
  method VideoDelete(db: Store, p: Principal, id: Option<Id>) returns (status: int)
    requires db.Valid()
    modifies db
    ensures db.Valid()
    ensures db.users == old(db.users) && db.profiles == old(db.profiles) && db.playlists == old(db.playlists)
    ensures status == (
      if p.user.None? then UNAUTHORIZED
      else if id.None? then BAD_REQUEST
      else
        match VideoIndex(old(db.videos), id.value)
        case None => NOT_FOUND
        case Some(i) => if !CanManage(p, old(db.videos)[i].adminId) then FORBIDDEN else OK)
    ensures status != OK ==> db.videos == old(db.videos)
    ensures status == OK ==> db.videos == RemoveAt(old(db.videos), VideoIndex(old(db.videos), id.value).value)
    ensures status == OK ==> forall v :: v in db.videos <==> v in old(db.videos) && v.id != id.value
  {
    if p.user.None? {
      return UNAUTHORIZED;
    }
    if id.None? {
      return BAD_REQUEST;
    }
    var found := VideoIndex(db.videos, id.value);
    if found.None? {
      return NOT_FOUND;
    }
    var i := found.value;
    if !CanManage(p, db.videos[i].adminId) {
      return FORBIDDEN;
    }
    var before := db.videos;
    RemoveAtKeepsDistinctKeys(before, i, VideoKey);
    db.videos := RemoveAt(before, i);
    forall v ensures v in db.videos <==> v in before && v.id != id.value {
      if v in db.videos {
        RemovedAtOnlyFrom(before, i, v);
        var k :| 0 <= k < |before| && k != i && before[k] == v;
        assert VideoKey(before[k]) != VideoKey(before[i]);
      }
      if v in before && v.id != id.value {
        var k :| 0 <= k < |before| && before[k] == v;
        RemoveAtKeepsOthers(before, i, k);
      }
    }
    return OK;
  }
}
