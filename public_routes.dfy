/** The `/public` routes: the profile-selection list and PIN verification.
    Both only read the store. */
module PublicRoutes {
  import opened Collections
  import opened Records
  import opened Http

  /** `GET /public/profiles`: the restricted profiles of the calling admin
      (`Restricted_users.find({ AdminId: req.user.id })`). */
  function Profiles(profiles: seq<Profile>, admin: Id): (r: seq<Profile>)
    ensures forall pr :: pr in r <==> pr in profiles && pr.adminId == admin
  {
    Filter(profiles, (pr: Profile) => pr.adminId == admin)
  }

  /** A refusal with its status, or status 200 with the profile. */
  datatype PinReply = Refused(status: int) | Verified(profile: Profile)

  /** `Restricted_users.findOne({ _id: id, AdminId: admin })`. */
  function OwnedProfileIndex(profiles: seq<Profile>, id: Id, admin: Id): (r: Option<nat>)
    ensures r.Some? ==> r.value < |profiles| && profiles[r.value].id == id && profiles[r.value].adminId == admin
    ensures r.None? <==> forall pr :: pr in profiles ==> !(pr.id == id && pr.adminId == admin)
  {
    IndexWhere(profiles, (pr: Profile) => pr.id == id && pr.adminId == admin)
  }

  /** `POST /public/verify-pin` for the admin `admin`: 400 when the profile
      id or the PIN is missing, before any lookup; 404 unless the profile
      exists and belongs to the caller; 401 on a PIN mismatch; else 200 with
      the profile. */
  function VerifyPin(profiles: seq<Profile>, admin: Id, profileId: Option<Id>, pin: Option<string>): (r: PinReply)
    ensures r.Refused? ==> r.status in {BAD_REQUEST, UNAUTHORIZED, NOT_FOUND}
    ensures profileId.None? || !Truthy(pin) ==> r == Refused(BAD_REQUEST)
    ensures profileId.Some? && Truthy(pin) ==> r != Refused(BAD_REQUEST)
    ensures profileId.Some? && Truthy(pin) ==>
      (r == Refused(NOT_FOUND) <==>
        forall pr :: pr in profiles ==> !(pr.id == profileId.value && pr.adminId == admin))
    ensures r.Verified? ==>
      && r.profile in profiles
      && r.profile.id == profileId.value
      && r.profile.adminId == admin
      && r.profile.pin == pin.value
    ensures r == Refused(UNAUTHORIZED) ==>
      exists pr :: pr in profiles && pr.id == profileId.value && pr.adminId == admin && pr.pin != pin.value
    // Once the caller's profile is found, the answer is the PIN comparison:
    // 200 with that profile when the PIN is its own, 401 otherwise.
    ensures profileId.Some? && Truthy(pin) && OwnedProfileIndex(profiles, profileId.value, admin).Some? ==>
      var found := profiles[OwnedProfileIndex(profiles, profileId.value, admin).value];
      if found.pin == pin.value then r == Verified(found) else r == Refused(UNAUTHORIZED)
  {
    if profileId.None? || !Truthy(pin) then
      Refused(BAD_REQUEST)
    else
      match OwnedProfileIndex(profiles, profileId.value, admin)
      case None => Refused(NOT_FOUND)
      case Some(i) =>
        if profiles[i].pin != pin.value then Refused(UNAUTHORIZED) else Verified(profiles[i])
  }

  /** With unique profile ids, the PIN check succeeds exactly for the
      caller's own profile with that id and PIN; a wrong PIN for the caller's
      profile gives 401; a profile of another admin gives 404 even when the
      PIN matches. */
  lemma VerifyPinExactly(profiles: seq<Profile>, admin: Id, pr: Profile, pin: string)
    requires DistinctKeys(profiles, ProfileKey)
    requires pr in profiles && pin != ""
    ensures VerifyPin(profiles, admin, Some(pr.id), Some(pin)) == Verified(pr) <==> pr.adminId == admin && pr.pin == pin
    ensures pr.adminId == admin && pr.pin != pin ==> VerifyPin(profiles, admin, Some(pr.id), Some(pin)) == Refused(UNAUTHORIZED)
    ensures pr.adminId != admin ==> VerifyPin(profiles, admin, Some(pr.id), Some(pin)) == Refused(NOT_FOUND)
  {
    var r := VerifyPin(profiles, admin, Some(pr.id), Some(pin));
    var k :| 0 <= k < |profiles| && profiles[k] == pr;
    match OwnedProfileIndex(profiles, pr.id, admin)
    case None =>
    case Some(i) =>
      assert ProfileKey(profiles[i]) == ProfileKey(profiles[k]);
  }
}
