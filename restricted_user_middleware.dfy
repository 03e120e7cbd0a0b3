/** `authenticateRestrictedUser`: resolves the `x-restricted-pin` header to a
    restricted profile and records it on the request. */
module RestrictedUserMiddleware {
  import opened Collections
  import opened Records
  import opened Http

  /** The request as the middleware sees it: the admin set by the bearer
      token middleware, the PIN header, and the slot it fills in. */
  class RequestContext {
    const user: Option<Id>
    const pinHeader: Option<string>
    var restrictedUserId: Option<Id>

    constructor (user: Option<Id>, pinHeader: Option<string>)
      ensures this.user == user && this.pinHeader == pinHeader
      ensures restrictedUserId == None
    {
      this.user := user;
      this.pinHeader := pinHeader;
      restrictedUserId := None;
    }

    /** The principal the handlers receive. */
    function Context(): Principal
      reads this
    {
      Principal(user, restrictedUserId)
    }
  }

  /** Either control passes to the handler, or a refusal is sent. */
  datatype Outcome = Next | Reject(status: int)

  /** `Restricted_users.findOne({ pin })`: the first profile in the store with
      that PIN, whichever admin owns it. */
  function PinIndex(profiles: seq<Profile>, pin: string): (r: Option<nat>)
    ensures r.Some? ==> r.value < |profiles| && profiles[r.value].pin == pin
    ensures r.Some? ==> forall k :: 0 <= k < r.value ==> profiles[k].pin != pin
    ensures r.None? <==> forall pr :: pr in profiles ==> pr.pin != pin
  {
    IndexWhere(profiles, (pr: Profile) => pr.pin == pin)
  }

  /** An admin passes straight through; otherwise a missing PIN or a PIN of
      no profile gives 401, and a known PIN records the first matching
      profile's id before passing on. */
  method AuthenticateRestrictedUser(req: RequestContext, profiles: seq<Profile>) returns (outcome: Outcome)
    modifies req
    ensures req.user.Some? ==> outcome == Next && req.restrictedUserId == old(req.restrictedUserId)
    ensures req.user.None? && !Truthy(req.pinHeader) ==>
      outcome == Reject(UNAUTHORIZED) && req.restrictedUserId == old(req.restrictedUserId)
    ensures req.user.None? && Truthy(req.pinHeader) ==>
      match PinIndex(profiles, req.pinHeader.value)
      case None => outcome == Reject(UNAUTHORIZED) && req.restrictedUserId == old(req.restrictedUserId)
      case Some(i) => outcome == Next && req.restrictedUserId == Some(profiles[i].id)
    // When control passes on without an admin, a restricted profile is set,
    // and it is one whose PIN is the header.
    ensures outcome == Next && req.user.None? ==>
      && req.restrictedUserId.Some?
      && exists pr :: pr in profiles && pr.id == req.restrictedUserId.value && pr.pin == req.pinHeader.value
    // The handlers are reached only with a principal: the admin, or else the
    // restricted profile the PIN belongs to.
    ensures outcome == Next ==> req.Context().user.Some? || req.Context().restrictedUserId.Some?
  {
    if req.user.Some? {
      return Next;
    }
    var pin := req.pinHeader;
    if !Truthy(pin) {
      return Reject(UNAUTHORIZED);
    }
    var found := PinIndex(profiles, pin.value);
    if found.None? {
      return Reject(UNAUTHORIZED);
    }
    req.restrictedUserId := Some(profiles[found.value].id);
    return Next;
  }
}
