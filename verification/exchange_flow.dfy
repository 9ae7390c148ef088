/** The server's exchange operations taken together: any sequence of create
    and status-update requests, the request flow between two members, and
    the unguarded direct-insert route beside them. */
module ExchangeFlow {
  import opened Basics
  import opened ExchangeStore
  import ExchangeRequest
  import ExchangeStatus
  import ExchangeLists

  /** One request that may write the exchange table. */
  datatype Op =
    | Create(account: Option<int>, toProfile: Option<int>, skill1: Option<int>, skill2: Option<int>, now: int)
    | SetStatus(id: int, text: string, caller: Option<int>)

  /** The table after one request; a refused request leaves it unchanged. */
  function Apply(s: Store, op: Op, profileOf: map<int, int>, locations: map<int, string>): (r: Store)
    requires Valid(s)
    ensures Valid(r)
    ensures r.rows.Keys >= s.rows.Keys
  {
    match op
    case Create(account, toProfile, skill1, skill2, now) =>
      (match ExchangeRequest.SubmitRequest(s, account, toProfile, skill1, skill2, profileOf, locations, now)
       case Ok((t, _)) => t
       case Err(_) => s)
    case SetStatus(id, text, caller) =>
      (match ExchangeStatus.UpdateStatus(s, id, text, caller)
       case Ok(t) => t
       case Err(_) => s)
  }

  /** The table after a sequence of requests, handled one at a time. */
  function Run(s: Store, ops: seq<Op>, profileOf: map<int, int>, locations: map<int, string>): (r: Store)
    requires Valid(s)
    ensures Valid(r)
    decreases |ops|
  {
    if ops == [] then s else Run(Apply(s, ops[0], profileOf, locations), ops[1..], profileOf, locations)
  }

  /** No request writes a self-exchange, so from an empty table no sequence
      of requests ever produces a row whose initiator is its recipient. */
  lemma {:induction false} RunKeepsPartiesDistinct(s: Store, ops: seq<Op>,
                                                   profileOf: map<int, int>, locations: map<int, string>)
    requires Valid(s) && PartiesDistinct(s)
    ensures PartiesDistinct(Run(s, ops, profileOf, locations))
    decreases |ops|
  {
    if ops != [] {
      var s' := Apply(s, ops[0], profileOf, locations);
      if ops[0].SetStatus? {
        var op := ops[0];
        if ExchangeStatus.UpdateStatus(s, op.id, op.text, op.caller).Ok? {
          ExchangeStatus.UpdatePreservesInvariants(s, op.id, op.text, op.caller);
        }
      }
      assert PartiesDistinct(s');
      RunKeepsPartiesDistinct(s', ops[1..], profileOf, locations);
    }
  }

  /** Every table reachable from the empty one is free of self-exchanges. */
  lemma ReachableStoresHaveDistinctParties(ops: seq<Op>, profileOf: map<int, int>, locations: map<int, string>)
    ensures var s := Run(EmptyStore, ops, profileOf, locations);
            forall id :: id in s.rows ==> s.rows[id].initiator != s.rows[id].recipient
  {
    RunKeepsPartiesDistinct(EmptyStore, ops, profileOf, locations);
  }

  /** Two members: account 10 owns profile 1, account 20 owns profile 2.
      Profile 1 asks profile 2 for skill 10, offering skill 5. Profile 2
      then sees one received request, in status `Requested`; it accepts, and
      profile 1's sent list shows the exchange as `Active`. */
  lemma RequestAcceptFlow(locations: map<int, string>, now: int)
    ensures var profileOf := map[10 := 1, 20 := 2];
            var c := ExchangeRequest.SubmitRequest(EmptyStore, Some(10), Some(2), Some(5), Some(10),
                                                   profileOf, locations, now);
            && c.Ok?
            && var (s1, id) := c.value;
               && ExchangeLists.Received(s1.rows, Some(2), {1, 2}).Keys == {id}
               && ExchangeLists.Received(s1.rows, Some(2), {1, 2})[id].status == Requested
               && var u := ExchangeStatus.UpdateStatus(s1, id, "Active", Some(2));
                  && u.Ok?
                  && ExchangeLists.Sent(u.value.rows, Some(1), {1, 2}).Keys == {id}
                  && ExchangeLists.Sent(u.value.rows, Some(1), {1, 2})[id].status == Active
  {
  }

  /** `POST /api/exchange`: inserts the row the body describes, in status
      `Requested` with both dates `now`. The route has no login guard and
      checks none of its values, so the caller picks both parties. */
  function DirectInsert(s: Store, profile1: int, profile2: int, skill1: int, skill2: int,
                        location: string, now: int): (r: (Store, int))
    requires Valid(s)
    ensures Valid(r.0)
    ensures r.1 !in s.rows
    ensures r.0.rows.Keys == s.rows.Keys + {r.1}
    ensures forall id :: id in s.rows ==> r.0.rows[id] == s.rows[id]
    ensures r.0.rows[r.1] == Exchange(profile1, profile2, skill1, skill2, Requested, location, now, now)
  {
    Insert(s, Exchange(profile1, profile2, skill1, skill2, Requested, location, now, now))
  }

  /** The direct-insert route admits what the create route refuses: the
      body {profile_id_1: 1, profile_id_2: 1, skill_id_1: 2, skill_id_2: 3,
      location: "Online"}
      writes an exchange of profile 1 with itself, and that row then shows
      in both of profile 1's lists. */
  lemma DirectInsertWritesSelfExchange(location: string, now: int)
    ensures var (t, id) := DirectInsert(EmptyStore, 1, 1, 2, 3, location, now);
            && !PartiesDistinct(t)
            && id in ExchangeLists.Received(t.rows, Some(1), {1})
            && id in ExchangeLists.Sent(t.rows, Some(1), {1})
  {
  }
}
