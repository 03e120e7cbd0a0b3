/** The `/playlists` handlers: `playlistPost`, `playlistGet`, `playlistPatch`,
    `playlistDelete`. */
module PlaylistController {
  import opened Collections
  import opened Records
  import opened Http
  import opened Authorization
  import opened Database

  /** The fields of a request body for `POST` and `PATCH /playlists`. */
  datatype PlaylistBody = PlaylistBody(name: Option<string>, associatedProfiles: Option<seq<Id>>)

  /** The query parameters of `GET /playlists`. */
  datatype PlaylistQuery = PlaylistQuery(id: Option<Id>, profileId: Option<Id>)

  /** A playlist as it is answered: the document with its `videoCount`. */
  datatype PlaylistView = PlaylistView(playlist: Playlist, videoCount: nat)

  /** A refusal with its status, or status 200 with one playlist or a list. */
  datatype PlaylistReply = Refused(status: int) | One(view: PlaylistView) | Many(views: seq<PlaylistView>)

  // ---------------------------------------------------------------------------
  // The queries of playlistGet.

  /** `Playlist.find({ adminId: admin })`. */
  function OwnedPlaylists(playlists: seq<Playlist>, admin: Id): (r: seq<Playlist>)
    ensures forall pl :: pl in r <==> pl in playlists && pl.adminId == admin
  {
    Filter(playlists, (pl: Playlist) => pl.adminId == admin)
  }

  /** `Playlist.find({ associatedProfiles: { $in: [profile] } })`. */
  function PlaylistsSharedWith(playlists: seq<Playlist>, profile: Id): (r: seq<Playlist>)
    ensures forall pl :: pl in r <==> pl in playlists && profile in pl.associatedProfiles
  {
    Filter(playlists, (pl: Playlist) => profile in pl.associatedProfiles)
  }

  /** Attaches its `videoCount` to every playlist, in order (the
      `Promise.all` over `countDocuments`, taken one playlist at a time). */
  function WithCounts(playlists: seq<Playlist>, videos: seq<Video>): (r: seq<PlaylistView>)
    ensures |r| == |playlists|
    ensures forall i :: 0 <= i < |r| ==> r[i].playlist == playlists[i]
    ensures forall i :: 0 <= i < |r| ==> r[i].videoCount == VideoCount(videos, playlists[i].id)
  {
    seq(|playlists|, i requires 0 <= i < |playlists| =>
      PlaylistView(playlists[i], VideoCount(videos, playlists[i].id)))
  }

  /** The playlists of a list of views. */
  function Documents(views: seq<PlaylistView>): (r: seq<Playlist>)
    ensures |r| == |views|
    ensures forall i :: 0 <= i < |r| ==> r[i] == views[i].playlist
  {
    seq(|views|, i requires 0 <= i < |views| => views[i].playlist)
  }

  /** Every view carries the number of videos of its playlist. */
  ghost predicate CountsAgree(views: seq<PlaylistView>, videos: seq<Video>) {
    forall w :: w in views ==> w.videoCount == VideoCount(videos, w.playlist.id)
  }

  /** A listing answer: exactly the playlists of `playlists`, with their counts. */
  function Listing(playlists: seq<Playlist>, videos: seq<Video>): (r: PlaylistReply)
    ensures r.Many?
    ensures Documents(r.views) == playlists
    ensures CountsAgree(r.views, videos)
  {
    Many(WithCounts(playlists, videos))
  }

  /** `GET /playlists`: the branches are tried in the order id, profileId,
      no parameter. */
  function PlaylistGet(playlists: seq<Playlist>, videos: seq<Video>, p: Principal, q: PlaylistQuery): (r: PlaylistReply)
    ensures r.Refused? ==> r.status in {UNAUTHORIZED, FORBIDDEN, NOT_FOUND}
    ensures r.Many? ==> CountsAgree(r.views, videos)
    // By id: 404 before 403; the playlist and its video count are returned
    // iff the principal may view it.
    ensures q.id.Some? ==>
      match PlaylistIndex(playlists, q.id.value)
      case None => r == Refused(NOT_FOUND)
      case Some(j) =>
        && (r.One? <==> CanViewPlaylist(p, playlists[j]))
        && (!r.One? ==> r == Refused(FORBIDDEN))
        && (r.One? ==> r.view == PlaylistView(playlists[j], VideoCount(videos, playlists[j].id)))
    // By profile: no principal check; exactly the playlists shared with it.
    ensures q.id.None? && q.profileId.Some? ==>
      r.Many? && forall pl :: pl in Documents(r.views) <==>
        pl in playlists && q.profileId.value in pl.associatedProfiles
    // No parameter: 401 without a principal; the admin's own playlists, else
    // the playlists shared with the restricted profile.
    ensures q.id.None? && q.profileId.None? ==>
      if p.user.Some? then
        r.Many? && forall pl :: pl in Documents(r.views) <==> pl in playlists && pl.adminId == p.user.value
      else if p.restrictedUserId.Some? then
        r.Many? && forall pl :: pl in Documents(r.views) <==>
          pl in playlists && p.restrictedUserId.value in pl.associatedProfiles
      else
        r == Refused(UNAUTHORIZED)
  {
    if q.id.Some? then
      match PlaylistIndex(playlists, q.id.value)
      case None => Refused(NOT_FOUND)
      case Some(j) =>
        if CanViewPlaylist(p, playlists[j]) then
          One(PlaylistView(playlists[j], VideoCount(videos, playlists[j].id)))
        else
          Refused(FORBIDDEN)
    else if q.profileId.Some? then
      Listing(PlaylistsSharedWith(playlists, q.profileId.value), videos)
    else if p.user.None? && p.restrictedUserId.None? then
      Refused(UNAUTHORIZED)
    else if p.user.Some? then
      Listing(OwnedPlaylists(playlists, p.user.value), videos)
    else
      Listing(PlaylistsSharedWith(playlists, p.restrictedUserId.value), videos)
  }

  /** The `profileId` branch answers anyone, with or without a principal:
      the answer does not depend on who asks. */
  lemma ProfileListingIgnoresPrincipal(playlists: seq<Playlist>, videos: seq<Video>, p1: Principal, p2: Principal, profile: Id)
    ensures PlaylistGet(playlists, videos, p1, PlaylistQuery(None, Some(profile)))
         == PlaylistGet(playlists, videos, p2, PlaylistQuery(None, Some(profile)))
    ensures PlaylistGet(playlists, videos, p1, PlaylistQuery(None, Some(profile))).Many?
  {
  }

  // ---------------------------------------------------------------------------
  // The writes.

  /** `POST /playlists`: 401 without an admin; the new playlist belongs to the
      caller and is shared with the given profiles (none by default); a
      missing name gives 422 and nothing is saved. */
  method PlaylistPost(db: Store, p: Principal, body: PlaylistBody, newId: Id) returns (status: int, saved: Option<Playlist>)
    requires db.Valid()
    requires KeyFree(db.playlists, PlaylistKey, newId)
    modifies db
    ensures db.Valid()
    ensures db.users == old(db.users) && db.profiles == old(db.profiles) && db.videos == old(db.videos)
    ensures status == (
      if p.user.None? then UNAUTHORIZED
      else if !Truthy(body.name) then UNPROCESSABLE
      else CREATED)
    ensures saved.Some? <==> status == CREATED
    ensures saved.Some? ==> saved.value == Playlist(
      newId, body.name.value, p.user.value,
      if body.associatedProfiles.Some? then body.associatedProfiles.value else [])
    ensures db.playlists == old(db.playlists) + if saved.Some? then [saved.value] else []
  {
    if p.user.None? {
      return UNAUTHORIZED, None;
    }
    var playlist := Playlist(
      newId,
      if body.name.Some? then body.name.value else "",
      p.user.value,
      if body.associatedProfiles.Some? then body.associatedProfiles.value else []);
    if playlist.name == "" {
      return UNPROCESSABLE, None;
    }
    AppendKeepsDistinctKeys(db.playlists, playlist, PlaylistKey);
    db.playlists := db.playlists + [playlist];
    return CREATED, Some(playlist);
  }

  /** `PATCH /playlists?id=`: checks 400 before 401 (the reverse of the video
      handlers), then 404 and 403; replaces the name when given non-empty and
      the profile list when given at all; the owner never changes. */
  method PlaylistPatch(db: Store, p: Principal, id: Option<Id>, body: PlaylistBody) returns (status: int)
    requires db.Valid()
    modifies db
    ensures db.Valid()
    ensures db.users == old(db.users) && db.profiles == old(db.profiles) && db.videos == old(db.videos)
    ensures status == (
      if id.None? then BAD_REQUEST
      else if p.user.None? then UNAUTHORIZED
      else
        match PlaylistIndex(old(db.playlists), id.value)
        case None => NOT_FOUND
        case Some(j) => if !CanManage(p, old(db.playlists)[j].adminId) then FORBIDDEN else OK)
    ensures status != OK ==> db.playlists == old(db.playlists)
    ensures |db.playlists| == |old(db.playlists)|
    ensures status == OK ==>
      var j := PlaylistIndex(old(db.playlists), id.value).value;
      var before, after := old(db.playlists)[j], db.playlists[j];
      && (forall k :: 0 <= k < |db.playlists| && k != j ==> db.playlists[k] == old(db.playlists)[k])
      && after.id == before.id
      && after.adminId == before.adminId
      && after.name == (if Truthy(body.name) then body.name.value else before.name)
      && after.associatedProfiles == (
        if body.associatedProfiles.Some? then body.associatedProfiles.value else before.associatedProfiles)
  {
    if id.None? {
      return BAD_REQUEST;
    }
    if p.user.None? {
      return UNAUTHORIZED;
    }
    var found := PlaylistIndex(db.playlists, id.value);
    if found.None? {
      return NOT_FOUND;
    }
    var j := found.value;
    var playlist := db.playlists[j];
    if !CanManage(p, playlist.adminId) {
      return FORBIDDEN;
    }
    if Truthy(body.name) {
      playlist := playlist.(name := body.name.value);
    }
    if body.associatedProfiles.Some? {
      playlist := playlist.(associatedProfiles := body.associatedProfiles.value);
    }
    var before := db.playlists;
    UpdateKeepsDistinctKeys(before, j, playlist, PlaylistKey);
    db.playlists := before[j := playlist];
    forall v | v in db.videos
      ensures exists pl :: pl in db.playlists && pl.id == v.playlistId && pl.adminId == v.adminId
    {
      var q :| q in before && q.id == v.playlistId && q.adminId == v.adminId;
      var k :| 0 <= k < |before| && before[k] == q;
      if k == j {
        assert db.playlists[j].id == q.id && db.playlists[j].adminId == q.adminId;
      } else {
        assert db.playlists[k] == q;
      }
    }
    return OK;
  }

  /** `DELETE /playlists?id=`: the same checks as the patch; then deletes every
      video of the playlist and the playlist itself. */
  method PlaylistDelete(db: Store, p: Principal, id: Option<Id>) returns (status: int)
    requires db.Valid()
    modifies db
    ensures db.Valid()
    ensures db.users == old(db.users) && db.profiles == old(db.profiles)
    ensures status == (
      if id.None? then BAD_REQUEST
      else if p.user.None? then UNAUTHORIZED
      else
        match PlaylistIndex(old(db.playlists), id.value)
        case None => NOT_FOUND
        case Some(j) => if !CanManage(p, old(db.playlists)[j].adminId) then FORBIDDEN else OK)
    ensures status != OK ==> db.playlists == old(db.playlists) && db.videos == old(db.videos)
    ensures status == OK ==>
      db.playlists == RemoveAt(old(db.playlists), PlaylistIndex(old(db.playlists), id.value).value)
    ensures status == OK ==> forall pl :: pl in db.playlists <==> pl in old(db.playlists) && pl.id != id.value
    ensures status == OK ==> db.videos == Filter(old(db.videos), (v: Video) => v.playlistId != id.value)
    ensures status == OK ==> forall v :: v in db.videos <==> v in old(db.videos) && v.playlistId != id.value
  {
    if id.None? {
      return BAD_REQUEST;
    }
    if p.user.None? {
      return UNAUTHORIZED;
    }
    var found := PlaylistIndex(db.playlists, id.value);
    if found.None? {
      return NOT_FOUND;
    }
    var j := found.value;
    var playlist := db.playlists[j];
    if !CanManage(p, playlist.adminId) {
      return FORBIDDEN;
    }
    var survivors := (v: Video) => v.playlistId != playlist.id;
    FilterKeepsDistinctKeys(db.videos, survivors, VideoKey);
    db.videos := Filter(db.videos, survivors);
    var before := db.playlists;
    RemoveAtKeepsDistinctKeys(before, j, PlaylistKey);
    db.playlists := RemoveAt(before, j);
    forall pl ensures pl in db.playlists <==> pl in before && pl.id != id.value {
      if pl in db.playlists {
        RemovedAtOnlyFrom(before, j, pl);
        var k :| 0 <= k < |before| && k != j && before[k] == pl;
        assert PlaylistKey(before[k]) != PlaylistKey(before[j]);
      }
      if pl in before && pl.id != id.value {
        var k :| 0 <= k < |before| && before[k] == pl;
        RemoveAtKeepsOthers(before, j, k);
      }
    }
    return OK;
  }
}
