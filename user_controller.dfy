/** Account registration (`userPost`) with its age rule
    (`isAtLeast18YearsOld`), and e-mail confirmation (`confirmEmail`). */
module UserController {
  import opened Collections
  import opened Records
  import opened Http
  import opened Database

  // ---------------------------------------------------------------------------
  // The age rule.

  /** Whole years from `birth` to `today`: the difference of the years, less
      one while today's (month, day) comes before the birthday's. */
  function Age(today: Date, birth: Date): (r: int)
    ensures r == today.year - birth.year || r == today.year - birth.year - 1
    // The full difference exactly once this year's birthday has come.
    ensures r == today.year - birth.year <==> !Before(today, Date(today.year, birth.month, birth.day))
  {
    var age := today.year - birth.year;
    var monthDifference := today.month - birth.month;
    if monthDifference < 0 || (monthDifference == 0 && today.day < birth.day) then age - 1 else age
  }

  /** `isAtLeast18YearsOld`; a birthdate that is absent or does not parse
      yields no age at all, and the comparison with 18 is then false. In
      calendar terms: adult exactly from the 18th birthday on. */
  function IsAtLeast18YearsOld(today: Date, birthdate: Option<Date>): (r: bool)
    ensures birthdate.None? ==> !r
    ensures birthdate.Some? ==> (r <==> !Before(today, EighteenthBirthday(birthdate.value)))
  {
    birthdate.Some? && Age(today, birthdate.value) >= 18
  }

  /** Calendar order on (year, month, day). */
  predicate Before(a: Date, b: Date) {
    a.year < b.year || (a.year == b.year && (a.month < b.month || (a.month == b.month && a.day < b.day)))
  }

  function EighteenthBirthday(birth: Date): Date {
    Date(birth.year + 18, birth.month, birth.day)
  }

  lemma AdultOnEighteenthBirthday(birth: Date)
    ensures IsAtLeast18YearsOld(EighteenthBirthday(birth), Some(birth))
  {
  }

  /** The day before an 18th birthday that is not on the 1st of a month. */
  lemma NotAdultTheDayBefore(birth: Date)
    requires birth.day > 1
    ensures !IsAtLeast18YearsOld(Date(birth.year + 18, birth.month, birth.day - 1), Some(birth))
  {
  }

  /** Every day of the month before the 18th birthday's month (December of
      the year before, for a birthday in January), so also the day before a
      birthday on the 1st. */
  lemma NotAdultTheMonthBefore(birth: Date, day: int)
    ensures !IsAtLeast18YearsOld(
      if birth.month > 1 then Date(birth.year + 18, birth.month - 1, day) else Date(birth.year + 17, 12, day),
      Some(birth))
  {
  }

  /** For a fixed birthdate the rule is monotone in `today`. */
  lemma AdulthoodIsMonotone(earlier: Date, later: Date, birth: Date)
    requires !Before(later, earlier)
    ensures IsAtLeast18YearsOld(earlier, Some(birth)) ==> IsAtLeast18YearsOld(later, Some(birth))
  {
  }

  // ---------------------------------------------------------------------------
  // Registration.

  /** The fields of the registration body. The repeated password is not
      modelled. */
  datatype UserForm = UserForm(
    email: Option<string>,
    password: Option<string>,
    phoneNumber: Option<string>,
    pin: Option<string>,
    name: Option<string>,
    lastName: Option<string>,
    country: Option<string>,
    birthdate: Option<Date>)

  /** Why a registration was refused (each with status 422). */
  datatype UserRejection = Underage | InvalidData | EmailAlreadyRegistered

  /** The required-field test of `userPost`. It is applied to the record as
      built, so it sees the ciphertext of whatever password was sent (none
      included), never the password itself; `country` is not tested. */
  function RequiredFieldsPresent(form: UserForm, encrypt: Option<string> -> string): (r: bool)
    // Each of the seven fields is needed, and given non-empty (a string is
    // falsy when it is empty) ...
    ensures r ==> Truthy(form.email) && Truthy(form.phoneNumber) && Truthy(form.pin)
    ensures r ==> Truthy(form.name) && Truthy(form.lastName) && form.birthdate.Some?
    ensures r ==> encrypt(form.password) != ""
    // ... and together they suffice.
    ensures (Truthy(form.email) && encrypt(form.password) != "" && Truthy(form.phoneNumber)
      && Truthy(form.pin) && Truthy(form.name) && Truthy(form.lastName) && form.birthdate.Some?) ==> r
  {
    && Truthy(form.email)
    && encrypt(form.password) != ""
    && Truthy(form.phoneNumber)
    && Truthy(form.pin)
    && Truthy(form.name)
    && Truthy(form.lastName)
    && form.birthdate.Some?
  }

  /** `User.findOne({ email })` finds a document. */
  function EmailRegistered(users: seq<User>, email: string): (r: bool)
    ensures r <==> IndexWhere(users, (u: User) => u.email == email).Some?
  {
    exists u | u in users :: u.email == email
  }

  /** `country` is the one optional field: it never decides the test. */
  lemma CountryNotRequired(form: UserForm, country: Option<string>, encrypt: Option<string> -> string)
    ensures RequiredFieldsPresent(form.(country := country), encrypt) == RequiredFieldsPresent(form, encrypt)
  {
  }

  /** `POST /users`: the age rule first, then the required fields, then the
      duplicate e-mail; a saved account starts unconfirmed. `encrypt` stands
      for the password cipher, applied to the password as sent (`None` when
      it is absent), and `newId` for the id the store assigns. */
  method UserPost(db: Store, form: UserForm, today: Date, encrypt: Option<string> -> string, newId: Id)
    returns (status: int, rejection: Option<UserRejection>, saved: Option<User>)
    requires db.Valid()
    requires KeyFree(db.users, UserKey, newId)
    modifies db
    ensures db.Valid()
    ensures db.profiles == old(db.profiles) && db.playlists == old(db.playlists) && db.videos == old(db.videos)
    ensures !IsAtLeast18YearsOld(today, form.birthdate) ==>
      status == UNPROCESSABLE && rejection == Some(Underage)
    ensures IsAtLeast18YearsOld(today, form.birthdate) && !RequiredFieldsPresent(form, encrypt) ==>
      status == UNPROCESSABLE && rejection == Some(InvalidData)
    ensures IsAtLeast18YearsOld(today, form.birthdate) && RequiredFieldsPresent(form, encrypt) ==>
      if EmailRegistered(old(db.users), form.email.value) then
        status == UNPROCESSABLE && rejection == Some(EmailAlreadyRegistered)
      else
        status == CREATED && rejection == None && saved == Some(User(
          newId, form.email.value, encrypt(form.password), form.phoneNumber.value,
          form.pin.value, form.name.value, form.lastName.value, form.country,
          form.birthdate.value, false))
    ensures saved.Some? <==> status == CREATED
    ensures saved.Some? ==> !saved.value.state
    ensures db.users == old(db.users) + if saved.Some? then [saved.value] else []
  {
    if !IsAtLeast18YearsOld(today, form.birthdate) {
      return UNPROCESSABLE, Some(Underage), None;
    }
    if !RequiredFieldsPresent(form, encrypt) {
      return UNPROCESSABLE, Some(InvalidData), None;
    }
    if EmailRegistered(db.users, form.email.value) {
      return UNPROCESSABLE, Some(EmailAlreadyRegistered), None;
    }
    var user := User(
      newId, form.email.value, encrypt(form.password), form.phoneNumber.value,
      form.pin.value, form.name.value, form.lastName.value, form.country,
      form.birthdate.value, false);
    AppendKeepsDistinctKeys(db.users, user, UserKey);
    AppendKeepsDistinctKeys(db.users, user, UserEmail);
    db.users := db.users + [user];
    return CREATED, None, Some(user);
  }

  /** Two registrations with the same e-mail address never both succeed: the
      store's users keep distinct addresses. */
  lemma OneAccountPerEmail(db: Store, u: User, w: User)
    requires db.Valid()
    requires u in db.users && w in db.users && u.email == w.email
    ensures u == w
  {
    var i :| 0 <= i < |db.users| && db.users[i] == u;
    var j :| 0 <= j < |db.users| && db.users[j] == w;
    assert UserEmail(db.users[i]) == UserEmail(db.users[j]);
  }

  // ---------------------------------------------------------------------------
  // Confirmation.

  /** `GET /users/confirm?id=`: 400 without an id, 404 for an unknown one,
      else the account's `state` becomes true and nothing else changes. */
  method ConfirmEmail(db: Store, id: Option<Id>) returns (status: int)
    requires db.Valid()
    modifies db
    ensures db.Valid()
    ensures db.profiles == old(db.profiles) && db.playlists == old(db.playlists) && db.videos == old(db.videos)
    ensures status == (
      if id.None? then BAD_REQUEST
      else if UserIndex(old(db.users), id.value).None? then NOT_FOUND
      else OK)
    ensures status != OK ==> db.users == old(db.users)
    ensures status == OK ==>
      var i := UserIndex(old(db.users), id.value).value;
      && db.users == old(db.users)[i := old(db.users)[i].(state := true)]
      && db.users[i].state
      // Confirming an account that is already confirmed changes nothing.
      && (old(db.users)[i].state ==> db.users == old(db.users))
  {
    if id.None? {
      return BAD_REQUEST;
    }
    var found := UserIndex(db.users, id.value);
    if found.None? {
      return NOT_FOUND;
    }
    var i := found.value;
    var user := db.users[i];
    user := user.(state := true);
    UpdateKeepsDistinctKeys(db.users, i, user, UserKey);
    UpdateKeepsDistinctKeys(db.users, i, user, UserEmail);
    db.users := db.users[i := user];
    return OK;
  }
}
