/** `POST /api/exchange/request`: the signed-in account asks another profile
    for an exchange of two skills. */
module ExchangeRequest {
  import opened Basics
  import opened ExchangeStore

  /** The 400 answers of the handler, in the order they are tested. */
  datatype CreateError =
    | MissingFields     // no session account, or a falsy body field
    | ProfileRequired   // the account has no skill_profile row
    | SelfExchange      // to_profile_id is the sender's own profile

  function Message(e: CreateError): string {
    match e
    case MissingFields => "Missing required fields (user, profile, or skills)"
    case ProfileRequired => "You must create your profile first."
    case SelfExchange => "Cannot request an exchange with yourself."
  }

  /** Every refusal of this handler is a 400. */
  function HttpCode(e: CreateError): int {
    400
  }

  /** The location given to an exchange created with a profile: that
      profile's location when it has a non-empty one, `Online` otherwise
      (no row, a NULL, or an empty string). */
  function LocationFor(locations: map<int, string>, profile: int): (r: string)
    ensures r != ""
    ensures profile in locations && locations[profile] != "" ==> r == locations[profile]
    ensures profile !in locations || locations[profile] == "" ==> r == "Online"
  {
    if profile in locations && locations[profile] != "" then locations[profile] else "Online"
  }

  /** The handler's decision: either the row to insert or the refusal.
      `profileOf` maps an account to its profile; `locations` holds each
      profile's location; `now` is the request's timestamp. */
  function CreateRequest(account: Option<int>, toProfile: Option<int>,
                         skill1: Option<int>, skill2: Option<int>,
                         profileOf: map<int, int>, locations: map<int, string>,
                         now: int): (r: Result<Exchange, CreateError>)
    ensures r == Err(MissingFields) <==>
              !(Truthy(account) && Truthy(toProfile) && Truthy(skill1) && Truthy(skill2))
    ensures r == Err(ProfileRequired) <==>
              Truthy(account) && Truthy(toProfile) && Truthy(skill1) && Truthy(skill2)
              && account.value !in profileOf
    ensures r == Err(SelfExchange) <==>
              Truthy(account) && Truthy(toProfile) && Truthy(skill1) && Truthy(skill2)
              && account.value in profileOf && toProfile.value == profileOf[account.value]
    ensures r.Ok? ==>
              && account.Some? && account.value in profileOf
              && r.value.initiator == profileOf[account.value]
              && toProfile.Some? && r.value.recipient == toProfile.value
              && skill1.Some? && r.value.offeredSkill == skill1.value
              && skill2.Some? && r.value.requestedSkill == skill2.value
              && r.value.status == Requested
              && r.value.location == LocationFor(locations, toProfile.value)
              && r.value.dateStart == now && r.value.dateEnd == now
    ensures r.Ok? ==> r.value.initiator != r.value.recipient
  {
    if !Truthy(account) || !Truthy(toProfile) || !Truthy(skill1) || !Truthy(skill2) then
      Err(MissingFields)
    else if account.value !in profileOf then
      Err(ProfileRequired)
    else
      var sender := profileOf[account.value];
      if toProfile.value == sender then
        Err(SelfExchange)
      else
        Ok(Exchange(sender, toProfile.value, skill1.value, skill2.value, Requested,
                    LocationFor(locations, toProfile.value), now, now))
  }

  /** The handler with its effect: on success the row is inserted under a
      fresh id, and the answer carries the new table and that id. */
  function SubmitRequest(s: Store, account: Option<int>, toProfile: Option<int>,
                         skill1: Option<int>, skill2: Option<int>,
                         profileOf: map<int, int>, locations: map<int, string>,
                         now: int): (r: Result<(Store, int), CreateError>)
    requires Valid(s)
    ensures r.Err? ==> CreateRequest(account, toProfile, skill1, skill2, profileOf, locations, now) == Err(r.error)
    ensures r.Ok? ==>
              && CreateRequest(account, toProfile, skill1, skill2, profileOf, locations, now).Ok?
              && r.value.1 !in s.rows
              && r.value.0.rows == s.rows[r.value.1 := CreateRequest(account, toProfile, skill1, skill2, profileOf, locations, now).value]
              && Valid(r.value.0)
    ensures r.Ok? && PartiesDistinct(s) ==> PartiesDistinct(r.value.0)
  {
    match CreateRequest(account, toProfile, skill1, skill2, profileOf, locations, now)
    case Err(e) => Err(e)
    case Ok(e) => Ok(Insert(s, e))
  }

  /** The self-exchange refusal names its reason: its message contains
      "yourself". */
  lemma SelfExchangeMessageSaysYourself()
    ensures Contains(Message(SelfExchange), "yourself")
  {
    assert OccursAt(Message(SelfExchange), "yourself", 32);
  }

  /** The unit test: account 1 owns profile 1 and asks profile 1 for an
      exchange of skills 2 and 3; the answer is 400, self-exchange. */
  lemma SelfExchangeTestCase(locations: map<int, string>, now: int)
    ensures CreateRequest(Some(1), Some(1), Some(2), Some(3), map[1 := 1], locations, now)
            == Err(SelfExchange)
    ensures HttpCode(SelfExchange) == 400
  {
  }

  /** A request is stored exactly when all four values are truthy, the
      account has a profile, and the target is another profile. */
  lemma SubmitSucceedsIff(s: Store, account: Option<int>, toProfile: Option<int>,
                             skill1: Option<int>, skill2: Option<int>,
                             profileOf: map<int, int>, locations: map<int, string>, now: int)
    requires Valid(s)
    ensures SubmitRequest(s, account, toProfile, skill1, skill2, profileOf, locations, now).Ok?
            <==> && Truthy(account) && Truthy(toProfile) && Truthy(skill1) && Truthy(skill2)
                 && account.value in profileOf && toProfile.value != profileOf[account.value]
  {
  }
}
