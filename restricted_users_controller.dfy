/** Creation of restricted profiles (`restricted_usersPost`). */
module RestrictedUsersController {
  import opened Collections
  import opened Records
  import opened Http
  import opened Database

  /** The fields of the request body. */
  datatype ProfileBody = ProfileBody(fullName: Option<string>, pin: Option<string>, avatar: Option<string>)

  /** `Restricted_users.findOne({ full_name })` finds a document: the lookup
      is over the profiles of every admin. */
  function NameTaken(profiles: seq<Profile>, fullName: Option<string>): (r: bool)
    // A missing name matches no profile.
    ensures fullName.None? ==> !r
    ensures fullName.Some? ==> (r <==> IndexWhere(profiles, (pr: Profile) => pr.fullName == fullName.value).Some?)
  {
    fullName.Some? && exists pr | pr in profiles :: pr.fullName == fullName.value
  }

  /** `POST /restricted_users` for the admin `admin` (`req.user.id`): 409 when
      any profile already has the name; otherwise the profile is saved only
      when name, PIN and avatar are all given, and when one is missing no
      response is sent at all (`status == None`). */
  method RestrictedUsersPost(db: Store, admin: Id, body: ProfileBody, newId: Id)
    returns (status: Option<int>, saved: Option<Profile>)
    requires db.Valid()
    requires KeyFree(db.profiles, ProfileKey, newId)
    modifies db
    ensures db.Valid()
    ensures db.users == old(db.users) && db.playlists == old(db.playlists) && db.videos == old(db.videos)
    ensures status == (
      if NameTaken(old(db.profiles), body.fullName) then Some(CONFLICT)
      else if Truthy(body.fullName) && Truthy(body.pin) && Truthy(body.avatar) then Some(CREATED)
      else None)
    ensures saved.Some? <==> status == Some(CREATED)
    ensures saved.Some? ==>
      saved.value == Profile(newId, body.fullName.value, body.pin.value, body.avatar.value, admin)
    ensures db.profiles == old(db.profiles) + if saved.Some? then [saved.value] else []
  {
    var profile := Profile(
      newId,
      if body.fullName.Some? then body.fullName.value else "",
      if body.pin.Some? then body.pin.value else "",
      if body.avatar.Some? then body.avatar.value else "",
      admin);
    if NameTaken(db.profiles, body.fullName) {
      return Some(CONFLICT), None;
    }
    if profile.fullName != "" && profile.pin != "" && profile.avatar != "" {
      AppendKeepsDistinctKeys(db.profiles, profile, ProfileKey);
      AppendKeepsDistinctKeys(db.profiles, profile, ProfileName);
      db.profiles := db.profiles + [profile];
      return Some(CREATED), Some(profile);
    }
    return None, None;
  }

  /** Profile names are unique across all admins: two stored profiles with
      the same name are the same profile. */
  lemma OneProfilePerName(db: Store, a: Profile, b: Profile)
    requires db.Valid()
    requires a in db.profiles && b in db.profiles && a.fullName == b.fullName
    ensures a == b
  {
    var i :| 0 <= i < |db.profiles| && db.profiles[i] == a;
    var j :| 0 <= j < |db.profiles| && db.profiles[j] == b;
    assert ProfileName(db.profiles[i]) == ProfileName(db.profiles[j]);
  }
}
