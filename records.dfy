/** The four document collections of the service and the request's principal
    context, as values. */
module Records {
  import opened Collections

  /** Document ids (Mongo `_id`s and the ids carried in requests); only
      compared for equality. */
  type Id(==, !new)

  /** A calendar date as (year, month, day). */
  datatype Date = Date(year: int, month: int, day: int)

  /** An admin account. `password` holds the encrypted form of the password;
      `state` is true once the e-mail address has been confirmed. */
  datatype User = User(
    id: Id,
    email: string,
    password: string,
    phoneNumber: string,
    pin: string,
    name: string,
    lastName: string,
    country: Option<string>,
    birthdate: Date,
    state: bool)

  /** A restricted (PIN-protected) profile owned by the admin `adminId`. */
  datatype Profile = Profile(id: Id, fullName: string, pin: string, avatar: string, adminId: Id)

  /** A playlist owned by `adminId` and shared with the restricted profiles
      in `associatedProfiles`. */
  datatype Playlist = Playlist(id: Id, name: string, adminId: Id, associatedProfiles: seq<Id>)

  /** A video of playlist `playlistId`; `adminId` copies that playlist's owner. */
  datatype Video = Video(
    id: Id,
    name: string,
    youtubeUrl: string,
    description: string,
    playlistId: Id,
    adminId: Id)

  /** Who is asking: `user` is the admin id of the bearer token (`req.user.id`),
      `restrictedUserId` the restricted profile resolved from a PIN. */
  datatype Principal = Principal(user: Option<Id>, restrictedUserId: Option<Id>)

  /** A request field that JavaScript treats as true: present and not the
      empty string. */
  predicate Truthy(s: Option<string>) {
    s.Some? && s.value != ""
  }

  // The keys of the store's unique indexes.

  function UserKey(u: User): Id { u.id }
  function UserEmail(u: User): string { u.email }
  function ProfileKey(p: Profile): Id { p.id }
  function ProfileName(p: Profile): string { p.fullName }
  function PlaylistKey(p: Playlist): Id { p.id }
  function VideoKey(v: Video): Id { v.id }

  // Lookups by `_id` (`findById`): the first document of the collection with that id.

  function UserIndex(users: seq<User>, id: Id): (r: Option<nat>)
    ensures r.Some? ==> r.value < |users| && users[r.value].id == id
    ensures r.None? <==> forall u :: u in users ==> u.id != id
  {
    IndexWhere(users, (u: User) => u.id == id)
  }

  function PlaylistIndex(playlists: seq<Playlist>, id: Id): (r: Option<nat>)
    ensures r.Some? ==> r.value < |playlists| && playlists[r.value].id == id
    ensures r.None? <==> forall p :: p in playlists ==> p.id != id
  {
    IndexWhere(playlists, (p: Playlist) => p.id == id)
  }

  function VideoIndex(videos: seq<Video>, id: Id): (r: Option<nat>)
    ensures r.Some? ==> r.value < |videos| && videos[r.value].id == id
    ensures r.None? <==> forall v :: v in videos ==> v.id != id
  {
    IndexWhere(videos, (v: Video) => v.id == id)
  }

  /** The filter document `{ playlistId: playlist }`. */
  function InPlaylist(playlist: Id): Video -> bool {
    (v: Video) => v.playlistId == playlist
  }

  /** The number of videos whose `playlistId` is `playlist`
      (`countDocuments({ playlistId })`). */
  function VideoCount(videos: seq<Video>, playlist: Id): (r: nat)
    ensures r <= |videos|
    ensures r == 0 <==> forall v :: v in videos ==> v.playlistId != playlist
  {
    var matching := Filter(videos, InPlaylist(playlist));
    assert matching != [] ==> matching[0] in matching;
    |matching|
  }

  /** On videos with distinct ids, the count is the number of distinct
      videos attached to the playlist. */
  lemma VideoCountIsNumberOfVideos(videos: seq<Video>, playlist: Id)
    requires DistinctKeys(videos, VideoKey)
    ensures VideoCount(videos, playlist) == |set v | v in videos && v.playlistId == playlist|
  {
    var f := InPlaylist(playlist);
    DistinctKeysNoDuplicates(videos, VideoKey);
    FilterLengthIsCardinality(videos, f);
    assert Matching(videos, f) == (set v | v in videos && v.playlistId == playlist);
  }
}
