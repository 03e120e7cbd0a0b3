/** The document store: the four collections the handlers read and write. */
module Database {
  import opened Collections
  import opened Records

  /** Every video belongs to a stored playlist with the same owner. */
  ghost predicate VideosAttached(playlists: seq<Playlist>, videos: seq<Video>) {
    forall v :: v in videos ==>
      exists p :: p in playlists && p.id == v.playlistId && p.adminId == v.adminId
  }

  class Store {
    var users: seq<User>
    var profiles: seq<Profile>
    var playlists: seq<Playlist>
    var videos: seq<Video>

    /** The store's invariant: `_id`s are unique in every collection, e-mail
        addresses are unique among users, restricted-profile names are unique
        across all admins, and videos stay attached to their playlists. */
    ghost predicate Valid()
      reads this
    {
      && DistinctKeys(users, UserKey)
      && DistinctKeys(users, UserEmail)
      && DistinctKeys(profiles, ProfileKey)
      && DistinctKeys(profiles, ProfileName)
      && DistinctKeys(playlists, PlaylistKey)
      && DistinctKeys(videos, VideoKey)
      && VideosAttached(playlists, videos)
    }

    /** An empty store. */
    constructor ()
      ensures Valid()
      ensures users == [] && profiles == [] && playlists == [] && videos == []
    {
      users, profiles, playlists, videos := [], [], [], [];
    }
  }
}
