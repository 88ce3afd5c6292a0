/** The customer's profile update: only the fields the request supplies are
    written, and a request that supplies none is refused. */
module Profile {
  import opened Results
  import opened Models

  /** A stored account; the password is kept as its hash. */
  datatype User = User(name: string, email: string, password: string, phone: Option<string>, orders: seq<OrderId>)

  /** The body of an update request; an empty string is an absent field. */
  datatype ProfileRequest = ProfileRequest(name: string, email: string, phone: string)

  predicate SuppliesSomething(req: ProfileRequest) {
    req.name != "" || req.email != "" || req.phone != ""
  }

  /** Writes the supplied fields over an account. */
  function Merge(u: User, req: ProfileRequest): User {
    u.(name := if req.name != "" then req.name else u.name,
       email := if req.email != "" then req.email else u.email,
       phone := if req.phone != "" then Some(req.phone) else u.phone)
  }

  /** `updateProfile` for the account `userId` names. A missing id fails
      first, then a request supplying no field, then an unknown account.
      Otherwise each supplied field is overwritten, every other field and
      every other account is left as it was. */
  function UpdateProfile(users: map<UserId, User>, userId: Option<UserId>, req: ProfileRequest): (r: Result<map<UserId, User>, Error>)
    ensures userId.None? ==> r == Failure(MissingUserId)
    ensures userId.Some? && !SuppliesSomething(req) ==> r == Failure(NothingToUpdate)
    ensures r.Success? <==> userId.Some? && SuppliesSomething(req) && userId.value in users
    ensures r.Success? ==>
      && r.value.Keys == users.Keys
      && (forall id :: id in users && id != userId.value ==> r.value[id] == users[id])
      && var before, after := users[userId.value], r.value[userId.value];
         && (req.name != "" ==> after.name == req.name)
         && (req.name == "" ==> after.name == before.name)
         && (req.email != "" ==> after.email == req.email)
         && (req.email == "" ==> after.email == before.email)
         && (req.phone != "" ==> after.phone == Some(req.phone))
         && (req.phone == "" ==> after.phone == before.phone)
         && after.password == before.password
         && after.orders == before.orders
  {
    if userId.None? then Failure(MissingUserId)
    else if !SuppliesSomething(req) then Failure(NothingToUpdate)
    else if userId.value !in users then Failure(UserNotFound)
    else Success(users[userId.value := Merge(users[userId.value], req)])
  }

  /** Sending the same update twice leaves the accounts as sending it
      once. */
  lemma UpdateProfileIdempotent(users: map<UserId, User>, userId: Option<UserId>, req: ProfileRequest)
    requires UpdateProfile(users, userId, req).Success?
    ensures var once := UpdateProfile(users, userId, req).value;
            UpdateProfile(once, userId, req) == Success(once)
  {
    var once := UpdateProfile(users, userId, req).value;
    assert once[userId.value := once[userId.value]] == once;
  }
}
