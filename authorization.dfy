/** The ownership and visibility rules that the handlers apply inline,
    defined once. The by-id and by-playlist reads decide their 403 with
    `CanViewVideo` and `CanViewPlaylist`, and every write decides its 403
    with `CanManage`; the listings are filtered queries instead. */
module Authorization {
  import opened Collections
  import opened Records
  import Database

  /** The principal is the admin `owner` (`req.user && owner === req.user.id`):
      the only basis for writes. */
  function CanManage(p: Principal, owner: Id): (r: bool)
    ensures r ==> p.user.Some?
    // The owner manages it; another admin never does, whatever restricted
    // profile is set.
    ensures p.user == Some(owner) ==> r
    ensures p.user.Some? && p.user.value != owner ==> !r
  {
    p.user == Some(owner)
  }

  /** The principal's restricted profile is among `audience`
      (`req.restrictedUserId && audience.includes(req.restrictedUserId)`). */
  function InAudience(p: Principal, audience: seq<Id>): (r: bool)
    ensures r ==> p.restrictedUserId.Some?
    ensures audience == [] ==> !r
    // A listed profile is in the audience, and an unlisted one is not.
    ensures p.restrictedUserId.Some? && p.restrictedUserId.value in audience ==> r
    ensures r ==> p.restrictedUserId.value in audience
  {
    p.restrictedUserId.Some? && p.restrictedUserId.value in audience
  }

  /** A playlist is visible to its owner and to the profiles it is shared with. */
  function CanViewPlaylist(p: Principal, pl: Playlist): (r: bool)
    ensures p == Principal(None, None) ==> !r
    ensures p.user == Some(pl.adminId) ==> r
    ensures p.user != Some(pl.adminId) ==>
      (r <==> p.restrictedUserId.Some? && p.restrictedUserId.value in pl.associatedProfiles)
  {
    CanManage(p, pl.adminId) || InAudience(p, pl.associatedProfiles)
  }

  /** A video is visible to its owner and to the profiles its playlist is
      shared with. */
  function CanViewVideo(p: Principal, v: Video, pl: Playlist): (r: bool)
    ensures p == Principal(None, None) ==> !r
    ensures p.user == Some(v.adminId) ==> r
    ensures p.user != Some(v.adminId) ==>
      (r <==> p.restrictedUserId.Some? && p.restrictedUserId.value in pl.associatedProfiles)
  {
    CanManage(p, v.adminId) || InAudience(p, pl.associatedProfiles)
  }

  /** Profile `rid` is listed by a stored playlist with id `playlist`. */
  ghost predicate SharedWith(playlists: seq<Playlist>, rid: Id, playlist: Id) {
    exists pl :: pl in playlists && pl.id == playlist && rid in pl.associatedProfiles
  }

  /** In a store whose videos are attached to their playlists, seeing a video
      is the same as seeing its playlist: the video rule, which compares the
      video's own copy of the owner, agrees with the playlist rule. */
  lemma VideoVisibleIffPlaylistVisible(playlists: seq<Playlist>, videos: seq<Video>, p: Principal, v: Video)
    requires DistinctKeys(playlists, PlaylistKey)
    requires Database.VideosAttached(playlists, videos)
    requires v in videos
    ensures PlaylistIndex(playlists, v.playlistId).Some?
    ensures CanViewVideo(p, v, playlists[PlaylistIndex(playlists, v.playlistId).value])
        <==> CanViewPlaylist(p, playlists[PlaylistIndex(playlists, v.playlistId).value])
  {
    var q :| q in playlists && q.id == v.playlistId && q.adminId == v.adminId;
    var i := PlaylistIndex(playlists, v.playlistId).value;
    var k :| 0 <= k < |playlists| && playlists[k] == q;
    assert PlaylistKey(playlists[k]) == PlaylistKey(playlists[i]);
  }
}
